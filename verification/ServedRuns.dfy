/** The slot protocol with engines that really run the book: an engine pops a task only when it is done with the
    last one, and then takes the steps of the reference match, one at a time, while workers go on. */
module ServedRuns {
  import opened Orders
  import opened SlotProtocol
  import opened EngineRefinement
  import opened ShardReference
  import opened LimitQueue
  import R = ReferenceBook
  import SlotInvariants

  /** An engine's progress: the tasks it has popped, the steps left of the last one, the slots it has recycled. */
  datatype Control = Control(done: seq<Task>, todo: seq<Label>, freed: seq<nat>)

  datatype World = World(st: State, control: map<nat, Control>)

  /** The engine's steps for a popped task. */
  function Program(done: seq<Task>, t: Task, s: nat): seq<Label> {
    match t
    case New(o) => if o.inst < MAX_INSTRUMENTS then SubmitLabels(BookAfter(done, o.inst).book, o, s) else []
    case Cancel(_, _, _) => [Recycle(s)]
  }

  function ShardIn(l: Label): nat
    requires !ByWorker(l)
  {
    l.s
  }

  /** Workers step freely; an engine steps as its program says. Any other label leaves the world alone. */
  function Next(c: Config, w: World, l: Label): World
    requires c.Valid()
  {
    if ByWorker(l) then w.(st := Step(c, w.st, l))
    else if ShardIn(l) !in w.control then w
    else
      var k := w.control[ShardIn(l)];
      if l.Take? then
        if k.todo != [] || (l.s, l.w) !in w.st.lanes || w.st.lanes[(l.s, l.w)].queue == [] then w
        else
          var t := w.st.lanes[(l.s, l.w)].queue[0];
          World(Step(c, w.st, l), w.control[l.s := Control(k.done + [t], Program(k.done, t, l.s), k.freed)])
      else if k.todo == [] || k.todo[0] != l || l.s !in w.st.shards then w
      else
        var freed := Engine(Trace(w.st.shards[l.s], k.freed), l).recycled;
        World(Step(c, w.st, l), w.control[l.s := Control(k.done, k.todo[1..], freed)])
  }

  function Begin(c: Config): World
    requires c.Valid()
  {
    World(Start(c), map s | s in Range(0, NUM_SHARDS) :: Control([], [], []))
  }

  function Served(c: Config, ls: seq<Label>): World
    requires c.Valid()
  {
    if ls == [] then Begin(c) else Next(c, Served(c, ls[..|ls| - 1]), ls[|ls| - 1])
  }

  /** The resting orders of one instrument. */
  function OfInst(m: map<nat, Order>, i: nat): map<nat, Order> {
    map id | id in m && m[id].inst == i :: m[id]
  }

  function NotOfInst(m: map<nat, Order>, i: nat): map<nat, Order> {
    map id | id in m && m[id].inst != i :: m[id]
  }

  /** A shard's table of resting orders is the union of its instruments' reference books. */
  ghost predicate HasBooks(m: map<nat, Order>, done: seq<Task>) {
    && (forall id <- m :: m[id].inst < MAX_INSTRUMENTS)
    && forall i :: 0 <= i < MAX_INSTRUMENTS ==> R.ById(BookAfter(done, i).book) == OfInst(m, i)
  }

  /** The steps left lead to the reference books of the tasks popped, with exactly their freed slots recycled. */
  ghost predicate OnTrack(sh: Shard, k: Control) {
    && AllDeliverable(MAX_INSTRUMENTS, k.done)
    && Arrives(EngineRun(Trace(sh, k.freed), k.todo), k.done)
  }

  ghost predicate Arrives(r: Trace, done: seq<Task>) {
    && r.shard.current.Nothing? && r.shard.held.Nothing? && HasBooks(r.shard.resting, done)
    && r.recycled == FreedSlots(ShardLog(done, MAX_INSTRUMENTS))
  }

  predicate EngineLabel(s: nat, l: Label) {
    !ByWorker(l) && !l.Take? && l.s == s
  }

  /** The slots of one owner among those freed, in order. */
  function OfOwner(c: Config, freed: seq<nat>, w: nat): seq<nat>
    requires c.Valid()
  {
    if freed == [] then [] else
      var n := |freed| - 1;
      OfOwner(c, freed[..n], w) + if c.Owner(freed[n]) == w then [freed[n]] else []
  }

  predicate IsSuffix(q: seq<nat>, all: seq<nat>) {
    |q| <= |all| && all[|all| - |q|..] == q
  }

  ghost predicate Inv(c: Config, w: World) {
    && SlotInvariants.Inv(c, w.st)
    && (forall s :: s in w.control <==> 0 <= s < NUM_SHARDS)
    && (forall s :: 0 <= s < NUM_SHARDS ==>
          OnTrack(w.st.shards[s], w.control[s]) && forall l <- w.control[s].todo :: EngineLabel(s, l))
    && (forall s :: 0 <= s < NUM_SHARDS ==> AllVetted(w.control[s].done))
    && (forall s, v :: 0 <= s < NUM_SHARDS && 0 <= v < c.workers ==>
          IsSuffix(w.st.lanes[(s, v)].recycle, OfOwner(c, w.control[s].freed, v)))
  }

  // ---- one popped task ----

  lemma ByIdOfInst(b: R.Book, i: nat)
    requires OnlyInst(b, i)
    ensures forall id <- R.ById(b) :: R.ById(b)[id].inst == i && R.ById(b)[id].id == id
  {
    forall id | id in R.ById(b) ensures R.ById(b)[id].inst == i && R.ById(b)[id].id == id { R.ByIdKeys(b, id); }
  }

  /** Splitting a shard's table into one book and the rest, and putting a changed book back. */
  lemma BookAndRest(m: map<nat, Order>, done: seq<Task>, i: nat)
    requires HasBooks(m, done) && i < MAX_INSTRUMENTS
    ensures var b := BookAfter(done, i).book; NotOfInst(m, i).Keys !! R.ById(b).Keys && m == NotOfInst(m, i) + R.ById(b)
  {
    hide R.ById, BookAfter;
  }

  lemma BookReplaced(m: map<nat, Order>, m': map<nat, Order>, done: seq<Task>, t: Task, i: nat)
    requires HasBooks(m, done) && i < MAX_INSTRUMENTS
    requires var b := BookAfter(done + [t], i).book;
      NotOfInst(m, i).Keys !! R.ById(b).Keys && m' == NotOfInst(m, i) + R.ById(b)
    requires forall j :: 0 <= j < MAX_INSTRUMENTS && j != i ==> BookAfter(done + [t], j).book == BookAfter(done, j).book
    ensures HasBooks(m', done + [t])
  {
    BooksKeepInst(done + [t], i);
    ByIdOfInst(BookAfter(done + [t], i).book, i);
    hide R.ById, BookAfter;
    var changed := R.ById(BookAfter(done + [t], i).book);
    OneInstReplaced(m, m', changed, i);
    forall j | 0 <= j < MAX_INSTRUMENTS ensures R.ById(BookAfter(done + [t], j).book) == OfInst(m', j) {}
  }

  lemma OneInstReplaced(m: map<nat, Order>, m': map<nat, Order>, changed: map<nat, Order>, i: nat)
    requires NotOfInst(m, i).Keys !! changed.Keys && m' == NotOfInst(m, i) + changed
    requires forall id <- changed :: changed[id].inst == i
    ensures OfInst(m', i) == changed
    ensures forall j {:trigger OfInst(m', j)} :: j != i ==> OfInst(m', j) == OfInst(m, j)
  {
    forall j | j != i ensures OfInst(m', j) == OfInst(m, j) {
      forall id ensures id in OfInst(m', j) <==> id in OfInst(m, j) {
        if id in m && m[id].inst == j { assert id in NotOfInst(m, i); }
      }
    }
  }

  lemma BookAfterSnoc(done: seq<Task>, t: Task, i: nat)
    ensures var r := Handled(BookAfter(done, i).book, i, t);
      BookAfter(done + [t], i) == R.Outcome(r.book, BookAfter(done, i).events + r.events)
  {
    assert (done + [t])[..|done|] == done;
  }

  lemma LogSnoc(done: seq<Task>, t: Task, n: nat)
    ensures ShardLog(done + [t], n) == ShardLog(done, n) + Caused(done, t, n)
  {
    assert (done + [t])[..|done|] == done;
  }

  lemma DeliverableSnoc(n: nat, done: seq<Task>, t: Task)
    requires AllDeliverable(n, done) && Deliverable(n, done, t)
    ensures AllDeliverable(n, done + [t])
  {
    hide Deliverable;
    forall k | 0 <= k < |done + [t]| ensures Deliverable(n, (done + [t])[..k], (done + [t])[k]) {
      assert (done + [t])[..k] == done[..k];
      assert k == |done| ==> done[..k] == done;
    }
  }

  lemma ReferenceIsHealthy(done: seq<Task>, i: nat)
    requires AllDeliverable(MAX_INSTRUMENTS, done) && i < MAX_INSTRUMENTS
    ensures R.WellFormed(BookAfter(done, i).book) && OnlyInst(BookAfter(done, i).book, i)
  {
    hide AllDeliverable, BookAfter, OpsOf, R.Run;
    ShardIsRun(MAX_INSTRUMENTS, done, i);
    R.RunIsHealthy(OpsOf(done, i));
    BooksKeepInst(done, i);
  }

  /** A slot that does not rest in the shard is in none of its books. */
  lemma InNoBook(m: map<nat, Order>, done: seq<Task>, id: nat, i: nat)
    requires HasBooks(m, done) && i < MAX_INSTRUMENTS && (id in m ==> m[id].inst != i)
    ensures id !in R.ById(BookAfter(done, i).book) && !InQueue(BookAfter(done, i).book, id)
    ensures R.IndexOf(BookAfter(done, i).book, id) == -1
  {
    hide BookAfter;
    assert id !in OfInst(m, i);
  }

  lemma NewArrives(sh: Shard, k: Control, o: Order, s: nat)
    requires OnTrack(sh, k) && k.todo == [] && o.inst < MAX_INSTRUMENTS
    requires 0 < o.id < POOL_CAPACITY && o.id !in sh.resting
    ensures var t := Task.New(o);
      OnTrack(sh.(current := Just(o)), Control(k.done + [t], Program(k.done, t, s), k.freed))
  {
    hide BookAfter, R.ById, AllDeliverable, EngineRun, FreedSlots, SubmitLabels, R.Submit;
    hide OfInst, NotOfInst, ShardLog, Caused;
    var t, i := Task.New(o), o.inst;
    var b, others := BookAfter(k.done, i).book, NotOfInst(sh.resting, i);
    NoSteps(Trace(sh, k.freed));
    forall j | 0 <= j < MAX_INSTRUMENTS ensures !InQueue(BookAfter(k.done, j).book, o.id) {
      InNoBook(sh.resting, k.done, o.id, j);
    }
    DeliverableSnoc(MAX_INSTRUMENTS, k.done, t);
    ReferenceIsHealthy(k.done, i);
    BookAndRest(sh.resting, k.done, i);
    NowhereIn(b, o.id);
    assert o.id !in others by { OthersInside(sh.resting, i); }
    SubmitIsEngineRun(b, o, s, sh.(current := Just(o)), others, k.freed);
    forall j | 0 <= j < MAX_INSTRUMENTS
      ensures j != i ==> BookAfter(k.done + [t], j).book == BookAfter(k.done, j).book
      ensures j != i ==> Handled(BookAfter(k.done, j).book, j, t).events == []
    {
      BookAfterSnoc(k.done, t, j);
    }
    BookAfterSnoc(k.done, t, i);
    var r := EngineRun(Trace(sh.(current := Just(o)), k.freed), Program(k.done, t, s));
    BookReplaced(sh.resting, r.shard.resting, k.done, t, i);
    LogSnoc(k.done, t, MAX_INSTRUMENTS);
    CausedByOne(k.done, t, MAX_INSTRUMENTS, i);
    FreedSum(ShardLog(k.done, MAX_INSTRUMENTS), R.Submit(b, o).events);
  }

  lemma NoSteps(t: Trace)
    ensures EngineRun(t, []) == t
  {}

  lemma OthersInside(m: map<nat, Order>, i: nat)
    ensures NotOfInst(m, i).Keys <= m.Keys && forall id <- m :: m[id].inst == i ==> id !in NotOfInst(m, i)
  {}

  lemma CancelArrives(sh: Shard, k: Control, t: Task, s: nat)
    requires OnTrack(sh, k) && k.todo == [] && t.Cancel? && t.id < POOL_CAPACITY
    ensures OnTrack(TaskStep(sh, t), Control(k.done + [t], Program(k.done, t, s), k.freed))
  {
    hide BookAfter, R.ById, AllDeliverable, EngineRun, FreedSlots, R.Cancel, OfInst, NotOfInst, ShardLog, Caused;
    var i := if t.id in sh.resting then sh.resting[t.id].inst else 0;
    var b, others := BookAfter(k.done, i).book, NotOfInst(sh.resting, i);
    NoSteps(Trace(sh, k.freed));
    DeliverableSnoc(MAX_INSTRUMENTS, k.done, t);
    ReferenceIsHealthy(k.done, i);
    BookAndRest(sh.resting, k.done, i);
    OthersInside(sh.resting, i);
    CancelIsEngineRun(b, t, s, sh, others, k.freed);
    forall j | 0 <= j < MAX_INSTRUMENTS
      ensures j != i ==> BookAfter(k.done + [t], j).book == BookAfter(k.done, j).book
      ensures j != i ==> Handled(BookAfter(k.done, j).book, j, t).events == []
    {
      BookAfterSnoc(k.done, t, j);
      if j != i { InNoBook(sh.resting, k.done, t.id, j); }
    }
    BookAfterSnoc(k.done, t, i);
    var r := EngineRun(Trace(TaskStep(sh, t), k.freed), [Recycle(s)]);
    BookReplaced(sh.resting, r.shard.resting, k.done, t, i);
    LogSnoc(k.done, t, MAX_INSTRUMENTS);
    CausedByOne(k.done, t, MAX_INSTRUMENTS, i);
    FreedSum(ShardLog(k.done, MAX_INSTRUMENTS), Handled(b, i, t).events);
  }

  // ---- every step ----

  /** Workers touch no engine, and take slots only from the front of a recycle queue. */
  lemma WorkerLanes(c: Config, st: State, l: Label)
    requires c.Valid() && ByWorker(l)
    ensures var st' := Step(c, st, l); st'.shards == st.shards && st'.lanes.Keys == st.lanes.Keys
    ensures forall key <- st.lanes :: var q, q' := st.lanes[key].recycle, Step(c, st, l).lanes[key].recycle;
      q' == q || (q != [] && q' == q[1..])
  {
    hide PassesRisk, Config.High, Config.Owner;
  }

  /** A step of an engine's program is that step of its own trace; a recycled slot goes to its owner's queue. */
  lemma EngineLanes(c: Config, st: State, l: Label, s: nat, freed: seq<nat>)
    requires SlotInvariants.Inv(c, st) && s < NUM_SHARDS && EngineLabel(s, l)
    ensures var st', t := Step(c, st, l), Engine(Trace(st.shards[s], freed), l);
      st'.shards == st.shards[s := t.shard] && st'.lanes.Keys == st.lanes.Keys
    ensures forall s', v :: (s', v) in st.lanes ==>
      Step(c, st, l).lanes[(s', v)].recycle ==
        st.lanes[(s', v)].recycle + (if s' == s && Recycled(st.shards[s], l) && c.Owner(st.shards[s].held.value) == v
                                     then [st.shards[s].held.value] else [])
  {
    hide SlotInvariants.LanesOk, SlotInvariants.SessionsOk, MatchStep, Config.Owner;
    assert SlotInvariants.ShardOk(c, s, st.shards[s], st.home);
    assert st.shards[s := st.shards[s]] == st.shards;
  }

  predicate Recycled(sh: Shard, l: Label) {
    l.Recycle? && sh.held.Just?
  }

  lemma OfOwnerSnoc(c: Config, freed: seq<nat>, slot: nat, w: nat)
    requires c.Valid()
    ensures OfOwner(c, freed + [slot], w) == OfOwner(c, freed, w) + if c.Owner(slot) == w then [slot] else []
  {
    hide Config.Owner;
    assert (freed + [slot])[..|freed|] == freed;
  }

  lemma WorkerKeeps(c: Config, w: World, l: Label)
    requires Inv(c, w) && ByWorker(l)
    ensures Inv(c, Next(c, w, l))
  {
    hide SlotInvariants.Inv, OnTrack, OfOwner, Step;
    ShapeOf(c, w.st);
    SlotInvariants.StepKeeps(c, w.st, l);
    WorkerLanes(c, w.st, l);
    ShapeOf(c, Step(c, w.st, l));
  }

  lemma ShapeOf(c: Config, st: State)
    requires SlotInvariants.Inv(c, st)
    ensures c.Valid() && Shaped(c, st)
  {}

  lemma ProgramKeeps(c: Config, w: World, l: Label)
    requires Inv(c, w) && !ByWorker(l) && !l.Take? && l.s < NUM_SHARDS
    requires w.control[l.s].todo != [] && w.control[l.s].todo[0] == l
    ensures Inv(c, Next(c, w, l))
  {
    hide SlotInvariants.Inv, OfOwner, Step, Arrives, AllDeliverable, Engine, EngineRun, Config.Owner, OnTrack;
    ShapeOf(c, w.st);
    var s, k := l.s, w.control[l.s];
    var sh := w.st.shards[s];
    SlotInvariants.StepKeeps(c, w.st, l);
    EngineLanes(c, w.st, l, s, k.freed);
    ShapeOf(c, Step(c, w.st, l));
    StillOnTrack(sh, k);
    var w' := Next(c, w, l);
    EngineFrees(Trace(sh, k.freed), l);
    forall v | 0 <= v < c.workers
      ensures IsSuffix(w'.st.lanes[(s, v)].recycle, OfOwner(c, w'.control[s].freed, v))
    {
      assert (s, v) in w.st.lanes;
      var q, q' := w.st.lanes[(s, v)].recycle, w'.st.lanes[(s, v)].recycle;
      if Recycled(sh, l) {
        OfOwnerSnoc(c, k.freed, sh.held.value, v);
        if c.Owner(sh.held.value) == v {
          SuffixSnoc(q, OfOwner(c, k.freed, v), sh.held.value);
        } else {
          assert q' == q + [] == q;
        }
      } else {
        assert q' == q + [] == q && w'.control[s].freed == k.freed + [] == k.freed;
      }
    }
  }

  lemma SuffixSnoc(q: seq<nat>, all: seq<nat>, x: nat)
    requires IsSuffix(q, all)
    ensures IsSuffix(q + [x], all + [x])
  {}

  lemma StillOnTrack(sh: Shard, k: Control)
    requires OnTrack(sh, k) && k.todo != []
    ensures var t := Engine(Trace(sh, k.freed), k.todo[0]); OnTrack(t.shard, Control(k.done, k.todo[1..], t.recycled))
  {
    hide Arrives, AllDeliverable, EngineRun, Engine;
    OneStep(Trace(sh, k.freed), k.todo);
  }

  lemma OneStep(t: Trace, ls: seq<Label>)
    requires ls != []
    ensures EngineRun(t, ls) == EngineRun(Engine(t, ls[0]), ls[1..])
  {}

  lemma EngineFrees(t: Trace, l: Label)
    ensures Engine(t, l).recycled == t.recycled + if Recycled(t.shard, l) then [t.shard.held.value] else []
  {}

  /** An idle engine pops a task as the protocol's Take does. */
  lemma TakeIsTaskStep(c: Config, st: State, s: nat, w: nat)
    requires SlotInvariants.Inv(c, st) && s < NUM_SHARDS && w < c.workers && st.lanes[(s, w)].queue != []
    requires st.shards[s].current.Nothing? && st.shards[s].held.Nothing?
    ensures var st' := Step(c, st, Take(s, w));
      && st'.shards == st.shards[s := TaskStep(st.shards[s], st.lanes[(s, w)].queue[0])]
      && st'.lanes.Keys == st.lanes.Keys
      && forall key <- st.lanes :: st'.lanes[key].recycle == st.lanes[key].recycle
  {
    hide SlotInvariants.LanesOk, SlotInvariants.SessionsOk, TaskStep;
  }

  lemma TakeKeeps(c: Config, w: World, l: Label)
    requires Inv(c, w) && l.Take?
    ensures Inv(c, Next(c, w, l))
  {
    hide SlotInvariants.Inv, OfOwner, Step, OnTrack, Program, AllVetted, TaskStep, IsSuffix;
    ShapeOf(c, w.st);
    var w' := Next(c, w, l);
    if w' != w {
      var s, k := l.s, w.control[l.s];
      var t, sh := w.st.lanes[(s, l.w)].queue[0], w.st.shards[s];
      IdleOnTrack(sh, k);
      SlotInvariants.StepKeeps(c, w.st, l);
      SlotInvariants.PoppedTaskOk(c, w.st, s, l.w);
      TakeIsTaskStep(c, w.st, s, l.w);
      ShapeOf(c, Step(c, w.st, l));
      ProgramLabels(k.done, t, s);
      VettedSnoc(k.done, t);
      TaskArrives(sh, k, t, s);
    }
  }

  lemma VettedSnoc(done: seq<Task>, t: Task)
    requires AllVetted(done) && (t.New? ==> Vetted(t.order))
    ensures AllVetted(done + [t])
  {}

  lemma TaskArrives(sh: Shard, k: Control, t: Task, s: nat)
    requires OnTrack(sh, k) && k.todo == []
    requires t.New? ==> t.order.inst < MAX_INSTRUMENTS && 0 < t.order.id < POOL_CAPACITY && t.order.id !in sh.resting
    requires t.Cancel? ==> t.id < POOL_CAPACITY
    ensures OnTrack(TaskStep(sh, t), Control(k.done + [t], Program(k.done, t, s), k.freed))
  {
    hide OnTrack, Program;
    match t
    case New(o) => NewArrives(sh, k, o, s);
    case Cancel(_, _, _) => CancelArrives(sh, k, t, s);
  }

  lemma IdleOnTrack(sh: Shard, k: Control)
    requires OnTrack(sh, k) && k.todo == []
    ensures sh.current.Nothing? && sh.held.Nothing? && HasBooks(sh.resting, k.done)
    ensures k.freed == FreedSlots(ShardLog(k.done, MAX_INSTRUMENTS))
  {
    hide HasBooks, FreedSlots, ShardLog;
  }

  lemma {:induction false} MatchLabelsOf(b: R.Book, o: Order, s: nat)
    ensures forall l <- MatchLabels(b, o, s) :: EngineLabel(s, l)
    decreases |b|
  {
    var i := R.Best(b, o.side.Other());
    if o.qty > 0 && i != -1 && o.qty >= b[i].qty { MatchLabelsOf(R.Without(b, i), o.(qty := o.qty - b[i].qty), s); }
  }

  lemma ProgramLabels(done: seq<Task>, t: Task, s: nat)
    ensures forall l <- Program(done, t, s) :: EngineLabel(s, l)
  {
    hide MatchLabels, BookAfter;
    if t.New? { MatchLabelsOf(BookAfter(done, t.order.inst).book, t.order, s); }
  }

  lemma NextKeeps(c: Config, w: World, l: Label)
    requires Inv(c, w)
    ensures Inv(c, Next(c, w, l))
  {
    if ByWorker(l) {
      WorkerKeeps(c, w, l);
    } else if l.Take? {
      TakeKeeps(c, w, l);
    } else if l.s < NUM_SHARDS && w.control[l.s].todo != [] && w.control[l.s].todo[0] == l {
      ProgramKeeps(c, w, l);
    } else {
      hide SlotInvariants.Inv, OnTrack, OfOwner;
    }
  }

  /** Any interleaving of any length, with engines that run the book: the tasks a shard has popped passed the
      gateway's checks and are ones its books can serve; between tasks its resting orders are exactly the union of its
      reference books; the slots it has recycled are, in order, the slots those books freed; and each recycle queue
      holds the last of its owner's. */
  lemma {:induction false} EveryRunIsServed(c: Config, ls: seq<Label>)
    requires c.Valid()
    ensures Inv(c, Served(c, ls))
    ensures forall s :: 0 <= s < NUM_SHARDS ==> ServedUpTo(c, Served(c, ls), s)
  {
    hide Next, Begin, SlotInvariants.Inv, OnTrack, OfOwner;
    if ls == [] {
      BeginInv(c);
    } else {
      EveryRunIsServed(c, ls[..|ls| - 1]);
      NextKeeps(c, Served(c, ls[..|ls| - 1]), ls[|ls| - 1]);
    }
    var w := Served(c, ls);
    ShapeOf(c, w.st);
    forall s | 0 <= s < NUM_SHARDS ensures ServedUpTo(c, w, s) { TrackServes(c, w, s); }
  }

  ghost predicate ServedUpTo(c: Config, w: World, s: nat)
    requires c.Valid()
  {
    && Shaped(c, w.st) && s in w.control && s in w.st.shards
    && var k, sh := w.control[s], w.st.shards[s];
    && AllDeliverable(MAX_INSTRUMENTS, k.done) && AllVetted(k.done)
    && (k.todo == [] ==>
          && sh.current.Nothing? && sh.held.Nothing? && HasBooks(sh.resting, k.done)
          && k.freed == FreedSlots(ShardLog(k.done, MAX_INSTRUMENTS)))
    && forall v :: 0 <= v < c.workers ==> IsSuffix(w.st.lanes[(s, v)].recycle, OfOwner(c, k.freed, v))
  }

  lemma TrackServes(c: Config, w: World, s: nat)
    requires Inv(c, w) && s < NUM_SHARDS
    ensures c.Valid() && ServedUpTo(c, w, s)
  {
    hide SlotInvariants.Inv, OfOwner, HasBooks, FreedSlots, ShardLog, EngineRun;
    ShapeOf(c, w.st);
    NoSteps(Trace(w.st.shards[s], w.control[s].freed));
  }

  lemma BeginInv(c: Config)
    requires c.Valid()
    ensures Inv(c, Begin(c))
  {
    hide SlotInvariants.Inv, Config.First, LaneKeys, Range;
    SlotInvariants.StartInv(c);
    ShapeOf(c, Start(c));
    var sh := Shard(map[], Nothing, Nothing);
    assert OnTrack(sh, Control([], [], [])) by { NothingServed(); }
  }

  lemma NothingServed()
    ensures OnTrack(Shard(map[], Nothing, Nothing), Control([], [], []))
  {
    NoSteps(Trace(Shard(map[], Nothing, Nothing), []));
    forall i | 0 <= i < MAX_INSTRUMENTS ensures R.ById(BookAfter([], i).book) == OfInst(map[], i) {}
  }

  /** Served runs are runs of the slot protocol: the labels an engine does not follow just do not happen. */
  lemma {:induction false} ServedIsProtocolRun(c: Config, ls: seq<Label>)
    requires c.Valid()
    ensures exists ks :: SlotProtocol.Run(c, ks) == Served(c, ls).st
  {
    if ls == [] {
      assert SlotProtocol.Run(c, []) == Served(c, ls).st;
    } else {
      hide Step, Program, Engine;
      var front, l := ls[..|ls| - 1], ls[|ls| - 1];
      ServedIsProtocolRun(c, front);
      var ks :| SlotProtocol.Run(c, ks) == Served(c, front).st;
      assert (ks + [l])[..|ks|] == ks;
      assert SlotProtocol.Run(c, ks + [l]) == Step(c, SlotProtocol.Run(c, ks), l);
      assert Served(c, ls).st == Served(c, front).st || Served(c, ls).st == SlotProtocol.Run(c, ks + [l]);
    }
  }
}
