/** The chassis `AuditLogger`: a flush writes its batch to every registered sink in turn, and puts the
    whole batch back when one of them fails. */
module AuditSinks {

  import Buffer = AuditBuffer

  type Entry = Buffer.Entry

  /** A batch under way and the next sink it is for. */
  datatype Batch = Batch(entries: seq<Entry>, next: nat)

  /** `delivered[k]` is what sink `k` has accepted. */
  datatype World = World(buffer: seq<Entry>, inFlight: seq<Batch>, delivered: seq<seq<Entry>>, emitted: seq<Entry>)

  function Start(sinks: nat): World {
    World([], [], seq(sinks, _ => []), [])
  }

  datatype Step = Emit(e: Entry) | Begin | Accept(flush: nat) | Refuse(flush: nat)

  predicate Enabled(w: World, step: Step) {
    step.Accept? || step.Refuse? ==> step.flush < |w.inFlight| && w.inFlight[step.flush].next < |w.delivered|
  }

  /** The flush goes on to its next sink, or ends after the last one. With no sinks it ends at once. */
  function Next(w: World, step: Step): World
    requires Enabled(w, step)
  {
    match step
    case Emit(e) => w.(buffer := w.buffer + [e], emitted := w.emitted + [e])
    case Begin =>
      if w.buffer == [] then w
      else if w.delivered == [] then w.(buffer := [])
      else w.(buffer := [], inFlight := w.inFlight + [Batch(w.buffer, 0)])
    case Accept(i) =>
      var b := w.inFlight[i];
      var delivered := w.delivered[b.next := w.delivered[b.next] + b.entries];
      if b.next + 1 == |w.delivered| then w.(delivered := delivered, inFlight := Buffer.Without(w.inFlight, i))
      else w.(delivered := delivered, inFlight := w.inFlight[i := b.(next := b.next + 1)])
    case Refuse(i) => w.(inFlight := Buffer.Without(w.inFlight, i), buffer := w.inFlight[i].entries + w.buffer)
  }

  ghost predicate Leads(w: World, step: Step, w': World) {
    Enabled(w, step) && w' == Next(w, step)
  }

  ghost predicate Run(sinks: nat, ws: seq<World>, steps: seq<Step>) {
    |ws| == |steps| + 1 && ws[0] == Start(sinks) && forall i | 0 <= i < |steps| :: Leads(ws[i], steps[i], ws[i + 1])
  }

  // ----- the object, while no other task comes in between -----

  /** The steps lead from one world to the other. */
  ghost predicate Path(w: World, steps: seq<Step>, w': World)
    decreases |steps|
  {
    if steps == [] then w == w'
    else Enabled(w, steps[0]) && Path(Next(w, steps[0]), steps[1..], w')
  }

  lemma {:induction false} PathOn(w: World, steps: seq<Step>, v: World, step: Step)
    requires Path(w, steps, v) && Enabled(v, step)
    ensures Path(w, steps + [step], Next(v, step))
    decreases |steps|
  {
    var more := steps + [step];
    if steps == [] {
      assert more[1..] == [];
    } else {
      PathOn(Next(w, steps[0]), steps[1..], v, step);
      assert more[1..] == steps[1..] + [step];
    }
  }

  lemma OneMore(k: nat, n: nat)
    ensures (k + 1) * n == k * n + n
  {
  }

  class AuditLogger {
    var buffer: seq<Entry>
    /** What each registered sink has accepted. */
    var delivered: seq<seq<Entry>>
    ghost var world: World

    ghost predicate Agrees()
      reads this
    {
      world.buffer == buffer && world.delivered == delivered
    }

    /** No flush is under way. */
    ghost predicate Valid()
      reads this
    {
      Agrees() && world.inFlight == []
    }

    constructor (sinks: nat)
      ensures Valid() && world == Start(sinks)
    {
      buffer, delivered, world := [], seq(sinks, _ => []), Start(sinks);
    }

    method Emit(e: Entry)
      requires Valid()
      modifies this
      ensures Valid() && buffer == old(buffer) + [e] && delivered == old(delivered)
      ensures world == Next(old(world), Step.Emit(e))
    {
      buffer := buffer + [e];
      world := Next(world, Step.Emit(e));
    }

    /** `accepts[k]` says whether sink `k` takes the batch. The sinks before the first refusal have it,
        the others do not, and a refusal puts the whole batch back and raises. The flush is a path of
        the steps above. */
    method Flush(accepts: seq<bool>) returns (total: nat, raised: bool, ghost steps: seq<Step>)
      requires Valid() && |accepts| == |delivered|
      modifies this
      ensures Valid() && |delivered| == |old(delivered)|
      ensures raised <==> old(buffer) != [] && FirstRefusal(accepts) < |accepts|
      ensures buffer == if raised then old(buffer) else []
      ensures forall k | 0 <= k < |delivered| ::
                delivered[k] == old(delivered[k]) + if k < FirstRefusal(accepts) then old(buffer) else []
      ensures !raised ==> total == |delivered| * |old(buffer)|
      ensures Path(old(world), steps, world)
    {
      var batch := buffer;
      PathOn(world, [], world, Begin);
      buffer := [];
      total, raised, steps := 0, false, [Begin];
      world := Next(world, Begin);
      if batch == [] {
        return;
      }
      for k := 0 to |delivered|
        invariant |delivered| == |old(delivered)| && buffer == []
        invariant k <= FirstRefusal(accepts) && total == k * |batch|
        invariant forall j | 0 <= j < |delivered| ::
                    delivered[j] == old(delivered[j]) + if j < k then batch else []
        invariant Path(old(world), steps, world)
        invariant Agrees() && world.inFlight == if k < |delivered| then [Batch(batch, k)] else []
      {
        ghost var step := if accepts[k] then Accept(0) else Refuse(0);
        PathOn(old(world), steps, world, step);
        steps := steps + [step];
        Offer(batch, k, accepts[k]);
        if !accepts[k] {
          return total, true, steps;
        }
        OneMore(k, |batch|);
        total := total + |batch|;
      }
    }

    /** One sink takes the batch, or refuses it. */
    method Offer(batch: seq<Entry>, k: nat, accepts: bool)
      requires Agrees() && k < |delivered| && world.inFlight == [Batch(batch, k)]
      modifies this
      ensures Agrees()
      ensures buffer == if accepts then old(buffer) else batch + old(buffer)
      ensures delivered == if accepts then old(delivered)[k := old(delivered)[k] + batch] else old(delivered)
      ensures world == Next(old(world), if accepts then Accept(0) else Refuse(0))
      ensures world.inFlight == if accepts && k + 1 < |delivered| then [Batch(batch, k + 1)] else []
    {
      if accepts {
        delivered := delivered[k := delivered[k] + batch];
        world := Next(world, Accept(0));
      } else {
        buffer := batch + buffer;
        world := Next(world, Refuse(0));
      }
    }
  }

  /** The number of sinks that accept before the first one that does not. */
  function FirstRefusal(accepts: seq<bool>): (n: nat)
    ensures n <= |accepts| && (forall i | 0 <= i < n :: accepts[i]) && (n < |accepts| ==> !accepts[n])
  {
    if accepts == [] || !accepts[0] then 0 else 1 + FirstRefusal(accepts[1..])
  }

  // ----- at least once -----

  /** Buffered or in a batch under way. */
  ghost predicate Pending(w: World, e: Entry) {
    e in w.buffer || exists i :: 0 <= i < |w.inFlight| && e in w.inFlight[i].entries
  }

  ghost predicate AtEverySink(w: World, e: Entry) {
    forall k | 0 <= k < |w.delivered| :: e in w.delivered[k]
  }

  /** A batch has reached the sinks before its next one, and there is a next one. */
  ghost predicate Progressed(w: World, b: Batch) {
    b.next < |w.delivered| && forall k, e | 0 <= k < b.next && e in b.entries :: e in w.delivered[k]
  }

  ghost predicate Inv(w: World) {
    && |w.delivered| > 0
    && (forall i | 0 <= i < |w.inFlight| :: Progressed(w, w.inFlight[i]))
    && (forall e | e in w.emitted :: Pending(w, e) || AtEverySink(w, e))
    && (forall k, e | 0 <= k < |w.delivered| && e in w.delivered[k] :: e in w.emitted)
    && (forall e | Pending(w, e) :: e in w.emitted)
  }

  lemma AcceptKeeps(w: World, i: nat)
    requires Inv(w) && Enabled(w, Accept(i))
    ensures Inv(Next(w, Accept(i)))
  {
    var w', b := Next(w, Accept(i)), w.inFlight[i];
    assert forall k, e | 0 <= k < |w.delivered| && e in w.delivered[k] :: e in w'.delivered[k];
    forall j | 0 <= j < |w'.inFlight| ensures Progressed(w', w'.inFlight[j]) {
      if b.next + 1 == |w.delivered| {
        assert w'.inFlight[j] == w.inFlight[if j < i then j else j + 1];
      }
    }
    forall e | e in w.emitted ensures Pending(w', e) || AtEverySink(w', e) {
      PendingAfter(w, i, e);
    }
    forall e | Pending(w', e) ensures e in w.emitted {
      if e !in w'.buffer {
        var j :| 0 <= j < |w'.inFlight| && e in w'.inFlight[j].entries;
        assert e in w.inFlight[if b.next + 1 == |w.delivered| && j >= i then j + 1 else j].entries;
      }
    }
    forall k, e | 0 <= k < |w'.delivered| && e in w'.delivered[k] ensures e in w.emitted {
      assert e in w.delivered[k] || e in b.entries;
      assert e in b.entries ==> Pending(w, e);
    }
  }

  lemma PendingAfter(w: World, i: nat, e: Entry)
    requires Inv(w) && Enabled(w, Accept(i)) && e in w.emitted
    ensures var w' := Next(w, Accept(i)); Pending(w', e) || AtEverySink(w', e)
  {
    var w', b := Next(w, Accept(i)), w.inFlight[i];
    if e in b.entries && b.next + 1 == |w.delivered| {
      assert AtEverySink(w', e);
    } else if Pending(w, e) && e !in w.buffer {
      var j :| 0 <= j < |w.inFlight| && e in w.inFlight[j].entries;
      assert e in w'.inFlight[if b.next + 1 == |w.delivered| && j > i then j - 1 else j].entries;
    }
  }

  lemma RefuseKeeps(w: World, i: nat)
    requires Inv(w) && Enabled(w, Refuse(i))
    ensures Inv(Next(w, Refuse(i)))
  {
    var w', b := Next(w, Refuse(i)), w.inFlight[i];
    forall j | 0 <= j < |w'.inFlight| ensures w'.inFlight[j] == w.inFlight[if j < i then j else j + 1] {}
    forall e | Pending(w, e) ensures Pending(w', e) {
      if e !in w.buffer && e !in b.entries {
        var j :| 0 <= j < |w.inFlight| && e in w.inFlight[j].entries;
        assert e in w'.inFlight[if j > i then j - 1 else j].entries;
      }
    }
    forall e | Pending(w', e) ensures Pending(w, e) {
      if e !in w'.buffer {
        var j :| 0 <= j < |w'.inFlight| && e in w'.inFlight[j].entries;
        assert e in w.inFlight[if j < i then j else j + 1].entries;
      }
    }
  }

  lemma BeginKeeps(w: World)
    requires Inv(w)
    ensures Inv(Next(w, Begin))
  {
    var w' := Next(w, Begin);
    if w.buffer != [] {
      var n := |w.inFlight|;
      assert w'.inFlight[n] == Batch(w.buffer, 0);
      forall e | Pending(w, e) ensures Pending(w', e) {
        if e !in w.buffer {
          var j :| 0 <= j < n && e in w.inFlight[j].entries;
          assert e in w'.inFlight[j].entries;
        } else {
          assert e in w'.inFlight[n].entries;
        }
      }
    }
  }

  lemma {:induction false} RunKeeps(sinks: nat, ws: seq<World>, steps: seq<Step>, i: nat)
    requires sinks > 0 && Run(sinks, ws, steps) && i < |ws|
    ensures Inv(ws[i]) && |ws[i].delivered| == sinks
  {
    if i > 0 {
      RunKeeps(sinks, ws, steps, i - 1);
      var w, step := ws[i - 1], steps[i - 1];
      assert Leads(w, step, ws[i - 1 + 1]);
      match step
      case Emit(_) =>
      case Begin => BeginKeeps(w);
      case Accept(f) => AcceptKeeps(w, f);
      case Refuse(f) => RefuseKeeps(w, f);
    }
  }

  /** At any moment of any run, an emitted entry is still pending or somewhere delivered. */
  ghost predicate Accounted(w: World) {
    forall e | e in w.emitted :: Pending(w, e) || exists k :: 0 <= k < |w.delivered| && e in w.delivered[k]
  }

  /** With at least one sink, an emitted entry that is no longer pending has reached every sink, and
      no sink has anything that was not emitted. */
  lemma DeliveredAtLeastOnce(sinks: nat, ws: seq<World>, steps: seq<Step>, i: nat, e: Entry)
    requires sinks > 0 && Run(sinks, ws, steps) && i < |ws|
    ensures e in ws[i].emitted && !Pending(ws[i], e) ==> AtEverySink(ws[i], e)
    ensures forall k | 0 <= k < |ws[i].delivered| :: e in ws[i].delivered[k] ==> e in ws[i].emitted
  {
    RunKeeps(sinks, ws, steps, i);
  }

  /** Entries are accounted for in every run exactly when there is a sink: a flush without sinks
      drops its batch. */
  lemma AccountedExactlyWithSinks(sinks: nat)
    ensures (forall ws: seq<World>, steps: seq<Step>, i: nat | Run(sinks, ws, steps) && i < |ws| :: Accounted(ws[i]))
            <==> sinks > 0
  {
    if sinks > 0 {
      forall ws: seq<World>, steps: seq<Step>, i: nat | Run(sinks, ws, steps) && i < |ws| ensures Accounted(ws[i]) {
        RunKeeps(sinks, ws, steps, i);
        forall e | e in ws[i].emitted && !Pending(ws[i], e)
          ensures exists k :: 0 <= k < |ws[i].delivered| && e in ws[i].delivered[k] {
          assert e in ws[i].delivered[0];
        }
      }
    } else {
      var e := Buffer.Entry(0, "");
      var w1 := World([e], [], [], [e]);
      var w2 := World([], [], [], [e]);
      var ws, steps := [Start(0), w1, w2], [Emit(e), Begin];
      assert Next(Start(0), Emit(e)) == w1 && Next(w1, Begin) == w2;
      assert Run(0, ws, steps);
      assert e in w2.emitted && !Pending(w2, e);
      assert !Accounted(ws[2]);
    }
  }

  // ----- at most once -----

  ghost function Waiting(bs: seq<Batch>): multiset<Entry> {
    if bs == [] then multiset{} else multiset(bs[0].entries) + Waiting(bs[1..])
  }

  lemma {:induction false} WaitingAppend(a: seq<Batch>, b: seq<Batch>)
    ensures Waiting(a + b) == Waiting(a) + Waiting(b)
  {
    if a == [] {
      assert a + b == b;
    } else {
      assert (a + b)[1..] == a[1..] + b;
      WaitingAppend(a[1..], b);
    }
  }

  lemma WaitingWithout(bs: seq<Batch>, i: nat)
    requires i < |bs|
    ensures Waiting(bs) == Waiting(Buffer.Without(bs, i)) + multiset(bs[i].entries)
  {
    var rest := [bs[i]] + bs[i + 1..];
    assert rest[0] == bs[i] && rest[1..] == bs[i + 1..];
    assert bs == bs[..i] + rest;
    WaitingAppend(bs[..i], rest);
    WaitingAppend(bs[..i], bs[i + 1..]);
  }

  ghost predicate ExactlyOnce(w: World) {
    |w.delivered| == 1 && multiset(w.emitted) == multiset(w.delivered[0]) + Waiting(w.inFlight) + multiset(w.buffer)
  }

  lemma StepKeepsExact(w: World, step: Step)
    requires ExactlyOnce(w) && Enabled(w, step)
    ensures ExactlyOnce(Next(w, step))
  {
    match step
    case Emit(e) =>
    case Begin => WaitingAppend(w.inFlight, [Batch(w.buffer, 0)]);
    case Accept(f) => WaitingWithout(w.inFlight, f);
    case Refuse(f) => WaitingWithout(w.inFlight, f);
  }

  /** With a single sink nothing is delivered twice: emitted, delivered and pending entries balance. */
  lemma {:induction false} SingleSinkIsExact(ws: seq<World>, steps: seq<Step>, i: nat)
    requires Run(1, ws, steps) && i < |ws|
    ensures ExactlyOnce(ws[i])
  {
    if i > 0 {
      SingleSinkIsExact(ws, steps, i - 1);
      assert Leads(ws[i - 1], steps[i - 1], ws[i - 1 + 1]);
      StepKeepsExact(ws[i - 1], steps[i - 1]);
    }
  }

  /** With two or more sinks a retry delivers again: some run leaves an entry at the first sink twice. */
  lemma RetryDeliversTwice(sinks: nat, e: Entry) returns (ws: seq<World>, steps: seq<Step>)
    requires sinks >= 2
    ensures Run(sinks, ws, steps) && ws[|steps|].emitted == [e]
    ensures ws[|steps|].delivered != [] && ws[|steps|].delivered[0] == [e, e]
  {
    var none: seq<seq<Entry>> := seq(sinks, _ => []);
    steps := [Emit(e), Begin, Accept(0), Refuse(0), Begin, Accept(0)];
    var w1 := World([e], [], none, [e]);
    var w2 := World([], [Batch([e], 0)], none, [e]);
    var w3 := World([], [Batch([e], 1)], none[0 := [e]], [e]);
    var w4 := World([e], [], none[0 := [e]], [e]);
    var w5 := World([], [Batch([e], 0)], none[0 := [e]], [e]);
    var w6 := World([], [Batch([e], 1)], none[0 := [e, e]], [e]);
    ws := [Start(sinks), w1, w2, w3, w4, w5, w6];
    assert Next(Start(sinks), Emit(e)) == w1 && Next(w1, Begin) == w2 && Next(w2, Accept(0)) == w3;
    assert Buffer.Without([Batch([e], 1)], 0) == [] && Next(w3, Refuse(0)) == w4;
    assert Next(w4, Begin) == w5;
    assert [e] + [e] == [e, e];
    assert none[0 := [e]][0 := [e, e]] == none[0 := [e, e]] && Next(w5, Accept(0)) == w6;
    assert Run(sinks, ws, steps);
  }

  /** No sink has an entry more often than it was emitted. */
  ghost predicate AtMostOnce(w: World) {
    forall k | 0 <= k < |w.delivered| :: multiset(w.delivered[k]) <= multiset(w.emitted)
  }

  lemma {:induction false} SinksStay(sinks: nat, ws: seq<World>, steps: seq<Step>, i: nat)
    requires Run(sinks, ws, steps) && i < |ws|
    ensures |ws[i].delivered| == sinks
  {
    if i > 0 {
      SinksStay(sinks, ws, steps, i - 1);
      assert Leads(ws[i - 1], steps[i - 1], ws[i - 1 + 1]);
    }
  }

  /** Nothing is delivered more often than it was emitted, in any run, exactly when there are fewer than two sinks. */
  lemma AtMostOnceExactly(sinks: nat)
    ensures (forall ws: seq<World>, steps: seq<Step>, i: nat | Run(sinks, ws, steps) && i < |ws| :: AtMostOnce(ws[i]))
            <==> sinks < 2
  {
    if sinks < 2 {
      forall ws: seq<World>, steps: seq<Step>, i: nat | Run(sinks, ws, steps) && i < |ws| ensures AtMostOnce(ws[i]) {
        SinksStay(sinks, ws, steps, i);
        if sinks == 1 {
          SingleSinkIsExact(ws, steps, i);
        }
      }
    } else {
      var e := Buffer.Entry(0, "");
      var ws, steps := RetryDeliversTwice(sinks, e);
      assert multiset([e, e])[e] == 2 && multiset([e])[e] == 1;
      assert !AtMostOnce(ws[|steps|]);
    }
  }
}
