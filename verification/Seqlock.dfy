/** The statistics region (stats_region.h:170-178) and its polling reader (stats_reader.py:47-56), one shared word
    access per step, in any interleaving. Labels that make no sense in a state leave it alone. */
module Seqlock {

  import opened MachineInts

  type Word = nat

  datatype Option<T> = None | Some(value: T)

  /** stats_write: load the sequence, make it odd, run the body, make it even. */
  datatype Writer = Idle | Loaded(s: nat) | Writing(s: nat)

  /** One call of read: `left` attempts remain; `since` is how many writes had begun when the attempt sampled `s0`. */
  datatype Reader =
    | Trying(left: nat)
    | Reading(left: nat, s0: nat, got: map<nat, Word>, since: nat)
    | Returned(snapshot: Option<seq<Word>>, since: nat, upTo: nat)

  /** `begun` and `published` are history: writes begun, and the block as each completed write left it. */
  datatype State = State(
    block: seq<Word>, counter: nat, writer: Writer, reader: Reader, begun: nat, published: seq<seq<Word>>)

  datatype Label = Load | Begin | Store(i: nat, v: Word) | End | Call(retries: nat) | Sample | Fetch(i: nat) | Check

  function Init(block: seq<Word>): State {
    State(block, 0, Idle, Returned(None, 0, 0), 0, [block])
  }

  function Next(s: State, l: Label): State {
    match l
    case Load => if s.writer.Idle? then s.(writer := Loaded(s.counter)) else s
    case Begin =>
      if !s.writer.Loaded? then s
      else s.(counter := (s.writer.s + 1) % WRAP32, writer := Writing(s.writer.s), begun := s.begun + 1)
    case Store(i, v) => if s.writer.Writing? && i < |s.block| then s.(block := s.block[i := v]) else s
    case End =>
      if !s.writer.Writing? then s
      else s.(counter := (s.writer.s + 2) % WRAP32, writer := Idle, published := s.published + [s.block])
    case Call(retries) => if s.reader.Returned? then s.(reader := Trying(retries)) else s
    case Sample =>
      if !s.reader.Trying? then s
      else if s.reader.left == 0 then s.(reader := Returned(None, s.begun, s.begun))
      else if s.counter % 2 == 1 then s.(reader := Trying(s.reader.left - 1))
      else s.(reader := Reading(s.reader.left - 1, s.counter, map[], s.begun))
    case Fetch(i) =>
      if s.reader.Reading? && i < |s.block| then s.(reader := s.reader.(got := s.reader.got[i := s.block[i]])) else s
    case Check =>
      if !s.reader.Reading? || exists i :: 0 <= i < |s.block| && i !in s.reader.got then s
      else if s.counter == s.reader.s0 then
        var snapshot := seq(|s.block|, i requires 0 <= i < |s.block| => s.reader.got[i]);
        s.(reader := Returned(Some(snapshot), s.reader.since, s.begun))
      else s.(reader := Trying(s.reader.left))
  }

  function Run(s: State, labels: seq<Label>): State {
    if labels == [] then s else Next(Run(s, labels[..|labels| - 1]), labels[|labels| - 1])
  }

  ghost predicate WriterInv(s: State) {
    && s.published != [] && |s.published[|s.published| - 1]| == |s.block|
    && s.begun == |s.published| - 1 + (if s.writer.Writing? then 1 else 0)
    && s.counter == (2 * s.begun - (if s.writer.Writing? then 1 else 0)) % WRAP32
    && (s.writer.Loaded? ==> s.writer.s == s.counter)
    && (s.writer.Writing? ==> s.writer.s == (2 * s.begun - 2) % WRAP32)
    && (!s.writer.Writing? ==> s.block == s.published[|s.published| - 1])
  }

  /** An attempt samples between writes; until the next write begins, what it has fetched is of one publication. */
  ghost predicate ReaderInv(s: State) {
    match s.reader
    case Trying(_) => true
    case Reading(_, s0, got, since) =>
      && since <= s.begun && since < |s.published| && s0 == (2 * since) % WRAP32
      && (forall i <- got :: i < |s.block|)
      && (since == s.begun ==> !s.writer.Writing? && forall i <- got :: got[i] == s.block[i])
    case Returned(snapshot, since, upTo) =>
      snapshot.Some? && upTo < since + WRAP32 / 2 ==> since < |s.published| && snapshot.value == s.published[since]
  }

  ghost predicate Inv(s: State) {
    WriterInv(s) && ReaderInv(s)
  }

  /** Adding `gap` brings a wrapping counter back exactly when it is a multiple of the wrap. */
  lemma ComesBack(a: nat, gap: nat)
    ensures (a + gap) % WRAP32 == a % WRAP32 <==> gap % WRAP32 == 0
  {
    Advance(a, gap % WRAP32);
    Advance(gap, a);
  }

  lemma Halves(n: nat)
    ensures 2 * n % WRAP32 == 0 <==> n % (WRAP32 / 2) == 0
    ensures n > 0 ==> (2 * n - 1) % WRAP32 != 0
  {
    var q, r := n / (WRAP32 / 2), n % (WRAP32 / 2);
    Quotient(2 * n, q, 2 * r);
    if r > 0 {
      Quotient(2 * n - 1, q, 2 * r - 1);
    } else if n > 0 {
      Quotient(2 * n - 1, q - 1, WRAP32 - 1);
    }
  }

  lemma Quotient(a: nat, q: nat, r: nat)
    requires a == q * WRAP32 + r && r < WRAP32
    ensures a % WRAP32 == r
  {}

  /** Exactly when the counter shows the sampled value again: a multiple of 2^31 writes has completed since. */
  lemma CounterRepeatsIff(s: State)
    requires Inv(s) && s.reader.Reading?
    ensures s.counter == s.reader.s0 <==> !s.writer.Writing? && (s.begun - s.reader.since) % (WRAP32 / 2) == 0
  {
    var n := s.begun - s.reader.since;
    Halves(n);
    if s.writer.Writing? {
      assert n > 0;
      ComesBack(2 * s.reader.since, 2 * n - 1);
    } else {
      ComesBack(2 * s.reader.since, 2 * n);
    }
  }

  lemma Advance(a: nat, d: nat)
    ensures (a % WRAP32 + d) % WRAP32 == (a + d) % WRAP32
  {}

  predicate OfWriter(l: Label) {
    l.Load? || l.Begin? || l.Store? || l.End?
  }

  lemma WriterKeepsInv(s: State, l: Label)
    requires Inv(s) && OfWriter(l)
    ensures Inv(Next(s, l))
  {
    if l.Begin? && s.writer.Loaded? {
      Advance(2 * s.begun, 1);
    } else if l.End? && s.writer.Writing? {
      Advance(2 * s.begun - 2, 2);
    }
  }

  lemma ReaderKeepsInv(s: State, l: Label)
    requires Inv(s) && !OfWriter(l)
    ensures Inv(Next(s, l))
  {
    if l.Sample? && s.counter % 2 == 0 {
      EvenIsIdle(s);
    } else if l.Check? && s.reader.Reading? && s.begun < s.reader.since + WRAP32 / 2 {
      CounterRepeatsIff(s);
    }
  }

  lemma EvenIsIdle(s: State)
    requires WriterInv(s) && s.counter % 2 == 0
    ensures !s.writer.Writing?
  {
    var ticks := 2 * s.begun - (if s.writer.Writing? then 1 else 0);
    assert ticks % WRAP32 % 2 == ticks % 2;
  }

  lemma NextKeepsInv(s: State, l: Label)
    requires Inv(s)
    ensures Inv(Next(s, l))
  {
    if OfWriter(l) { WriterKeepsInv(s, l); } else { ReaderKeepsInv(s, l); }
  }

  lemma {:induction false} RunKeepsInv(block: seq<Word>, labels: seq<Label>)
    ensures Inv(Run(Init(block), labels))
  {
    if labels != [] {
      RunKeepsInv(block, labels[..|labels| - 1]);
      NextKeepsInv(Run(Init(block), labels[..|labels| - 1]), labels[|labels| - 1]);
    }
  }

  /** A snapshot the reader returns is a block some write published (or the initial one), if fewer than 2^31 writes
      began during the attempt. */
  lemma SnapshotIsPublished(block: seq<Word>, labels: seq<Label>)
    ensures var s := Run(Init(block), labels);
      (s.reader.Returned? && s.reader.snapshot.Some? && s.reader.upTo - s.reader.since < WRAP32 / 2
       ==> s.reader.since < |s.published| && s.reader.snapshot.value == s.published[s.reader.since])
  {
    RunKeepsInv(block, labels);
  }

  lemma {:induction false} RunConcat(s: State, a: seq<Label>, b: seq<Label>)
    ensures Run(s, a + b) == Run(Run(s, a), b)
    decreases |b|
  {
    if b == [] {
      assert a + b == a;
    } else {
      var front := b[..|b| - 1];
      assert (a + b)[..|a + b| - 1] == a + front;
      RunConcat(s, a, front);
    }
  }

  /** An attempt that no write overlaps succeeds with the latest publication. */
  lemma {:induction false} QuietAttemptSucceeds(s: State)
    requires Inv(s) && s.reader.Trying? && s.reader.left > 0 && !s.writer.Writing?
    ensures var r := Run(s, [Sample] + Fetches(|s.block|) + [Check]).reader;
      r == Returned(Some(s.published[|s.published| - 1]), s.begun, s.begun)
  {
    hide Inv;
    EvenWhenIdle(s);
    RunOne(s, Sample);
    var t := Next(s, Sample);
    FetchAll(t, |s.block|);
    RunConcat(s, [Sample], Fetches(|s.block|));
    var u := Run(t, Fetches(|s.block|));
    RunOne(u, Check);
    RunConcat(s, [Sample] + Fetches(|s.block|), [Check]);
    var r := Next(u, Check).reader;
    assert r.Returned?;
    assert r.snapshot.value == s.block;
  }

  lemma EvenWhenIdle(s: State)
    requires Inv(s) && !s.writer.Writing?
    ensures s.counter % 2 == 0 && s.block == s.published[|s.published| - 1]
  {}

  lemma RunOne(s: State, l: Label)
    ensures Run(s, [l]) == Next(s, l)
  {
    assert Run(s, [l][..0]) == s;
  }

  function Fetches(n: nat): seq<Label> {
    if n == 0 then [] else Fetches(n - 1) + [Fetch(n - 1)]
  }

  lemma {:induction false} FetchAll(s: State, n: nat)
    requires s.reader.Reading? && s.reader.got == map[] && n <= |s.block|
    ensures var t := Run(s, Fetches(n));
      t == s.(reader := t.reader) && t.reader.Reading? && t.reader == s.reader.(got := t.reader.got)
      && forall i :: 0 <= i < n ==> i in t.reader.got && t.reader.got[i] == s.block[i]
  {
    if n > 0 {
      FetchAll(s, n - 1);
      assert Fetches(n)[..|Fetches(n)| - 1] == Fetches(n - 1);
    }
  }

  // ---- giving up ----

  /** This step ends an attempt in vain: a write was under way at the sample, or the counter has moved since. */
  predicate AttemptFails(s: State, l: Label) {
    || (l.Sample? && s.reader.Trying? && s.reader.left > 0 && s.counter % 2 == 1)
    || (l.Check? && s.reader.Reading? && s.counter != s.reader.s0
        && forall i :: 0 <= i < |s.block| ==> i in s.reader.got)
  }

  predicate Calls(s: State, l: Label) {
    l.Call? && s.reader.Returned?
  }

  /** The attempts that the latest call of a run may make. */
  function Asked(block: seq<Word>, labels: seq<Label>): nat {
    if labels == [] then 0 else
      var n := |labels| - 1;
      if Calls(Run(Init(block), labels[..n]), labels[n]) then labels[n].retries else Asked(block, labels[..n])
  }

  /** The attempts that have failed since the latest call. */
  function Failures(block: seq<Word>, labels: seq<Label>): nat {
    if labels == [] then 0 else
      var n := |labels| - 1;
      var s := Run(Init(block), labels[..n]);
      if Calls(s, labels[n]) then 0
      else Failures(block, labels[..n]) + if AttemptFails(s, labels[n]) then 1 else 0
  }

  /** What the failures of a call say about where it stands: it gives up exactly after as many as it was allowed, and
      one that succeeds had an attempt left. */
  predicate Effort(r: Reader, asked: nat, failed: nat) {
    match r
    case Trying(left) => failed + left == asked
    case Reading(left, _, _, _) => failed + 1 + left == asked
    case Returned(snapshot, _, _) => if snapshot.None? then failed == asked else failed < asked
  }

  lemma StepEffort(s: State, l: Label, asked: nat, failed: nat)
    requires Effort(s.reader, asked, failed)
    ensures if Calls(s, l) then Effort(Next(s, l).reader, l.retries, 0)
      else Effort(Next(s, l).reader, asked, failed + if AttemptFails(s, l) then 1 else 0)
  {}

  /** In every run, no call returns nothing before its last attempt has failed. */
  lemma {:induction false} GivesUpOnlyAtTheEnd(block: seq<Word>, labels: seq<Label>)
    ensures Effort(Run(Init(block), labels).reader, Asked(block, labels), Failures(block, labels))
  {
    if labels != [] {
      hide Next, AttemptFails, Calls, Effort;
      var n := |labels| - 1;
      GivesUpOnlyAtTheEnd(block, labels[..n]);
      StepEffort(Run(Init(block), labels[..n]), labels[n], Asked(block, labels[..n]), Failures(block, labels[..n]));
    }
  }

  const ONE_WRITE: seq<Label> := [Load, Begin, Store(0, 1), Store(1, 1), End]

  function Writes(n: nat): seq<Label> {
    if n == 0 then [] else Writes(n - 1) + ONE_WRITE
  }

  lemma RunSnoc(s: State, labels: seq<Label>, l: Label)
    ensures Run(s, labels + [l]) == Next(Run(s, labels), l)
  {
    assert (labels + [l])[..|labels|] == labels;
  }

  lemma OneWrite(s: State)
    requires s.writer.Idle? && |s.block| == 2 && s.counter < WRAP32
    ensures Run(s, ONE_WRITE) ==
      s.(block := [1, 1], counter := (s.counter + 2) % WRAP32, begun := s.begun + 1,
         published := s.published + [[1, 1]])
  {
    hide Run;
    RunOne(s, Load);
    RunSnoc(s, [Load], Begin);
    RunSnoc(s, [Load] + [Begin], Store(0, 1));
    RunSnoc(s, [Load] + [Begin] + [Store(0, 1)], Store(1, 1));
    RunSnoc(s, [Load] + [Begin] + [Store(0, 1)] + [Store(1, 1)], End);
    assert [Load] + [Begin] + [Store(0, 1)] + [Store(1, 1)] + [End] == ONE_WRITE;
    assert s.block[0 := 1][1 := 1] == [1, 1];
    Advance(s.counter, 2);
  }

  lemma {:induction false} ManyWrites(s: State, n: nat)
    requires s.writer.Idle? && |s.block| == 2 && s.counter < WRAP32
    ensures var t := Run(s, Writes(n));
      t.writer.Idle? && t.reader == s.reader && |t.block| == 2 && t.counter == (s.counter + 2 * n) % WRAP32
      && (n > 0 ==> t.block == [1, 1]) && forall b <- t.published :: b in s.published || b == [1, 1]
  {
    if n > 0 {
      ManyWrites(s, n - 1);
      var t := Run(s, Writes(n - 1));
      OneWrite(t);
      RunConcat(s, Writes(n - 1), ONE_WRITE);
      Advance(s.counter + 2 * (n - 1), 2);
    }
  }

  /** The bound is needed: 2^31 writes during one attempt bring the counter back, and a torn block is returned. */
  lemma WrapTearsSnapshot()
    ensures exists labels :: Torn(Run(Init([0, 0]), labels))
  {
    Tear(WRAP32 / 2);
  }

  lemma Tear(n: nat)
    requires n == WRAP32 / 2
    ensures Torn(Run(Init([0, 0]), [Call(1)] + [Sample] + [Fetch(0)] + Writes(n) + [Fetch(1)] + [Check]))
  {
    hide Run, Writes;
    var s := Init([0, 0]);
    var before := [Call(1)] + [Sample] + [Fetch(0)];
    RunOne(s, Call(1));
    RunSnoc(s, [Call(1)], Sample);
    RunSnoc(s, [Call(1)] + [Sample], Fetch(0));
    var half := Run(s, before);
    assert half == s.(reader := Reading(0, 0, map[0 := 0], 0));
    ManyWrites(half, n);
    RunConcat(s, before, Writes(n));
    var late := Run(half, Writes(n));
    RunSnoc(s, before + Writes(n), Fetch(1));
    RunSnoc(s, before + Writes(n) + [Fetch(1)], Check);
    assert late.counter == 0 && late.block == [1, 1];
    var fetched := Next(late, Fetch(1));
    assert fetched.reader.got == map[0 := 0, 1 := 1];
    assert Next(fetched, Check).reader.snapshot.value == [0, 1];
  }

  ghost predicate Torn(s: State) {
    s.reader.Returned? && s.reader.snapshot.Some? && s.reader.snapshot.value !in s.published
  }
}
