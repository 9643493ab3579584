/** The engine's `AuditLogger`: entries are buffered, and flushes that overlap at `await` points move
    them to the store, or back to the front of the buffer when the insert fails. */
module AuditBuffer {

  import opened Sequences

  datatype Entry = Entry(auditId: nat, body: string)

  // ----- cooperative runs -----

  /** The logger's buffer, the batches whose insert is under way, the store, what `flush` handed to
      its callers, what has been emitted, and the sum of the counts flushes returned. */
  datatype World = World(buffer: seq<Entry>, inFlight: seq<seq<Entry>>, stored: seq<Entry>,
                         drained: seq<Entry>, emitted: seq<Entry>, reported: nat)

  const START: World := World([], [], [], [], [], 0)

  /** Tasks switch only at `await`, so each step runs alone. A flush is named by its place among the
      batches under way. */
  datatype Step = Emit(e: Entry) | Begin | Succeed(flush: nat) | Fail(flush: nat) | Drain

  predicate Enabled(w: World, step: Step) {
    (step.Succeed? || step.Fail?) ==> step.flush < |w.inFlight|
  }

  function Without<T>(s: seq<T>, i: nat): seq<T>
    requires i < |s|
  {
    s[..i] + s[i + 1..]
  }

  function Next(w: World, step: Step): World
    requires Enabled(w, step)
  {
    match step
    case Emit(e) => w.(buffer := w.buffer + [e], emitted := w.emitted + [e])
    case Begin => if w.buffer == [] then w else w.(buffer := [], inFlight := w.inFlight + [w.buffer])
    case Succeed(i) =>
      w.(inFlight := Without(w.inFlight, i),
         stored := w.stored + w.inFlight[i],
         reported := w.reported + |w.inFlight[i]|)
    case Fail(i) => w.(inFlight := Without(w.inFlight, i), buffer := w.inFlight[i] + w.buffer)
    case Drain => w.(buffer := [], drained := w.drained + w.buffer)
  }

  /** The logger. `world` is the run it is part of, which every method carries one step on. */
  class AuditLogger {
    var buffer: seq<Entry>
    ghost var world: World

    ghost predicate Valid()
      reads this
    {
      buffer == world.buffer
    }

    constructor ()
      ensures Valid() && world == START
    {
      buffer, world := [], START;
    }

    method Emit(e: Entry)
      requires Valid()
      modifies this
      ensures Valid() && buffer == old(buffer) + [e]
      ensures world == Next(old(world), Step.Emit(e))
    {
      buffer := buffer + [e];
      world := Next(world, Step.Emit(e));
    }

    /** `flush`: the entries go to the caller. */
    method Flush() returns (entries: seq<Entry>)
      requires Valid()
      modifies this
      ensures Valid() && entries == old(buffer) && buffer == []
      ensures world == Next(old(world), Drain)
    {
      entries := buffer;
      buffer := [];
      world := Next(world, Drain);
    }

    /** `flush_to_store` up to its first `await`: the batch is taken out. */
    method TakeBatch() returns (batch: seq<Entry>)
      requires Valid()
      modifies this
      ensures Valid() && batch == old(buffer) && buffer == []
      ensures world == Next(old(world), Begin)
    {
      batch := buffer;
      buffer := [];
      world := Next(world, Begin);
    }

    /** `flush_to_store` after the insert: on failure the batch goes back to the front. The result is
        the number of entries persisted; a failure raises instead. */
    method FinishBatch(batch: seq<Entry>, inserted: bool, ghost flush: nat) returns (persisted: nat)
      requires Valid() && flush < |world.inFlight| && world.inFlight[flush] == batch
      modifies this
      ensures Valid() && buffer == (if inserted then [] else batch) + old(buffer)
      ensures persisted == if inserted then |batch| else 0
      ensures world == Next(old(world), if inserted then Succeed(flush) else Fail(flush))
    {
      if inserted {
        persisted := |batch|;
      } else {
        buffer := batch + buffer;
        persisted := 0;
      }
      world := Next(world, if inserted then Succeed(flush) else Fail(flush));
    }
  }

  ghost predicate Leads(w: World, step: Step, w': World) {
    Enabled(w, step) && w' == Next(w, step)
  }

  ghost predicate Run(ws: seq<World>, steps: seq<Step>) {
    |ws| == |steps| + 1 && ws[0] == START && forall i | 0 <= i < |steps| :: Leads(ws[i], steps[i], ws[i + 1])
  }

  function Flat<T>(ss: seq<seq<T>>): seq<T> {
    if ss == [] then [] else ss[0] + Flat(ss[1..])
  }

  lemma {:induction false} FlatAppend<T>(a: seq<seq<T>>, b: seq<seq<T>>)
    ensures Flat(a + b) == Flat(a) + Flat(b)
  {
    if a == [] {
      assert a + b == b;
    } else {
      assert (a + b)[1..] == a[1..] + b;
      FlatAppend(a[1..], b);
    }
  }

  lemma FlatWithout<T>(ss: seq<seq<T>>, i: nat)
    requires i < |ss|
    ensures multiset(Flat(ss)) == multiset(Flat(Without(ss, i))) + multiset(ss[i])
  {
    assert ss == ss[..i] + ([ss[i]] + ss[i + 1..]);
    FlatAppend(ss[..i], [ss[i]] + ss[i + 1..]);
    FlatAppend([ss[i]], ss[i + 1..]);
    FlatAppend(ss[..i], ss[i + 1..]);
  }

  // ----- conservation -----

  ghost function Held(w: World): multiset<Entry> {
    multiset(w.stored) + multiset(w.drained) + multiset(Flat(w.inFlight)) + multiset(w.buffer)
  }

  ghost predicate Conserved(w: World) {
    multiset(w.emitted) == Held(w) && w.reported == |w.stored|
  }

  lemma StepConserves(w: World, step: Step)
    requires Conserved(w) && Enabled(w, step)
    ensures Conserved(Next(w, step))
  {
    match step
    case Begin =>
      FlatAppend(w.inFlight, [w.buffer]);
    case Succeed(i) => FlatWithout(w.inFlight, i);
    case Fail(i) => FlatWithout(w.inFlight, i);
    case _ =>
  }

  /** In any interleaving of emits, overlapping flushes with failures, and drains, the emitted
      entries are exactly the stored, drained, in-flight and buffered ones, counted with repetition,
      and the counts that flushes returned add up to what is stored. */
  lemma {:induction false} NothingLostOrDoubled(ws: seq<World>, steps: seq<Step>, i: nat)
    requires Run(ws, steps) && i < |ws|
    ensures Conserved(ws[i])
  {
    if i > 0 {
      NothingLostOrDoubled(ws, steps, i - 1);
      assert Leads(ws[i - 1], steps[i - 1], ws[i - 1 + 1]);
      StepConserves(ws[i - 1], steps[i - 1]);
    }
  }

  /** When every entry is emitted once, none is stored twice. */
  lemma StoredAtMostOnce(ws: seq<World>, steps: seq<Step>, i: nat)
    requires Run(ws, steps) && i < |ws| && Distinct(ws[i].emitted)
    ensures Distinct(ws[i].stored)
  {
    NothingLostOrDoubled(ws, steps, i);
    DistinctCounts(ws[i].emitted);
    DistinctCounts(ws[i].stored);
    forall e ensures multiset(ws[i].stored)[e] <= multiset(ws[i].emitted)[e] {}
  }

  // ----- order -----

  /** No flush begins while another one is under way, and nothing is drained. */
  ghost predicate OneFlusher(ws: seq<World>, steps: seq<Step>)
    requires |ws| == |steps| + 1
  {
    forall i | 0 <= i < |steps| :: steps[i] != Drain && (steps[i] == Begin ==> ws[i].inFlight == [])
  }

  ghost predicate InOrder(w: World) {
    w.emitted == w.stored + Flat(w.inFlight) + w.buffer && |w.inFlight| <= 1
  }

  /** With one flusher at a time, the store, the batch under way and the buffer concatenate to the
      order of emission, whatever fails. */
  lemma {:induction false} OneFlusherKeepsOrder(ws: seq<World>, steps: seq<Step>, i: nat)
    requires Run(ws, steps) && OneFlusher(ws, steps) && i < |ws|
    ensures InOrder(ws[i])
  {
    if i > 0 {
      OneFlusherKeepsOrder(ws, steps, i - 1);
      assert Leads(ws[i - 1], steps[i - 1], ws[i - 1 + 1]);
    } else {
      assert Flat<Entry>([]) == [];
    }
  }

  lemma ReorderingStarts(a: Entry, b: Entry)
    ensures Next(START, Emit(a)) == World([a], [], [], [], [a], 0)
    ensures Next(World([a], [], [], [], [a], 0), Begin) == World([], [[a]], [], [], [a], 0)
    ensures Next(World([], [[a]], [], [], [a], 0), Emit(b)) == World([b], [[a]], [], [], [a, b], 0)
    ensures Next(World([b], [[a]], [], [], [a, b], 0), Begin) == World([], [[a], [b]], [], [], [a, b], 0)
  {
  }

  /** Nothing is drained, and never more than `k` flushes are under way. */
  ghost predicate Flushers(ws: seq<World>, steps: seq<Step>, k: nat)
    requires |ws| == |steps| + 1
  {
    Drain !in steps && forall i | 0 <= i < |ws| :: |ws[i].inFlight| <= k
  }

  /** With two flushers a later entry can be stored while an earlier one is back in the buffer. */
  lemma TwoFlushersCanReorder(a: Entry, b: Entry) returns (ws: seq<World>, steps: seq<Step>)
    ensures Run(ws, steps) && Flushers(ws, steps, 2) && ws[|steps|].emitted == [a, b]
    ensures ws[|steps|].stored == [b] && ws[|steps|].inFlight == [] && ws[|steps|].buffer == [a]
  {
    steps := [Emit(a), Begin, Emit(b), Begin, Succeed(1), Fail(0)];
    var w1 := World([a], [], [], [], [a], 0);
    var w2 := World([], [[a]], [], [], [a], 0);
    var w3 := World([b], [[a]], [], [], [a, b], 0);
    var w4 := World([], [[a], [b]], [], [], [a, b], 0);
    var w5 := World([], [[a]], [b], [], [a, b], 1);
    var w6 := World([a], [], [b], [], [a, b], 1);
    ws := [START, w1, w2, w3, w4, w5, w6];
    ReorderingStarts(a, b);
    assert Leads(ws[0], steps[0], ws[1]) && Leads(ws[1], steps[1], ws[2]) && Leads(ws[2], steps[2], ws[3]);
    assert Leads(ws[3], steps[3], ws[4]) && Leads(ws[4], steps[4], ws[5]) && Leads(ws[5], steps[5], ws[6]);
    assert Run(ws, steps);
  }

  // ----- how many flushers keep the order -----

  /** Store, batches under way and buffer concatenate to the order of emission. */
  ghost predicate Ordered(w: World) {
    w.emitted == w.stored + Flat(w.inFlight) + w.buffer
  }

  ghost predicate AlwaysOrdered(k: nat) {
    forall ws, steps, i: nat {:trigger Run(ws, steps), ws[i]} ::
      Run(ws, steps) && Flushers(ws, steps, k) && i < |ws| ==> Ordered(ws[i])
  }

  /** The order of emission is kept in all runs with at most `k` flushes at a time exactly when `k` is at most one. */
  lemma OrderKeptExactly(k: nat)
    ensures AlwaysOrdered(k) <==> k <= 1
  {
    forall ws, steps, i: nat | k <= 1 && Run(ws, steps) && Flushers(ws, steps, k) && i < |ws| ensures Ordered(ws[i]) {
      FewFlushersKeepOrder(ws, steps, i);
    }
    if k >= 2 {
      var a, b := Entry(0, ""), Entry(1, "");
      var ws, steps := TwoFlushersCanReorder(a, b);
      assert ws[|steps|].emitted[0] == a && Flat<Entry>([]) == [];
      assert !Ordered(ws[|steps|]);
    }
  }

  lemma {:induction false} FewFlushersKeepOrder(ws: seq<World>, steps: seq<Step>, i: nat)
    requires Run(ws, steps) && Flushers(ws, steps, 1) && i < |ws|
    ensures InOrder(ws[i])
  {
    if i > 0 {
      FewFlushersKeepOrder(ws, steps, i - 1);
      assert Leads(ws[i - 1], steps[i - 1], ws[i - 1 + 1]);
      assert steps[i - 1] in steps;
    } else {
      assert Flat<Entry>([]) == [];
    }
  }
}
