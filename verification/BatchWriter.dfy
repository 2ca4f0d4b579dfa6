/**
 gateway/internal/audit/audit.go and gateway/internal/alert/alert.go: producers
 and one worker around a bounded channel. Both writers are this machine; audit
 uses a channel of 4096 and a configured batch, alert a channel of 2048 and 32.
*/
module BatchWriter {
  import Text

  datatype Phase = Running | Draining | Stopped

  /** One call of the flush function; the last flush of Run is marked. */
  datatype Batch<E> = Batch(entries: seq<E>, atShutdown: bool)

  /** What the scheduler may let happen next. */
  datatype Event<E> =
    | Enqueue(e: E) // any producer, at any time
    | Receive       // case e := <-w.ch of the outer select
    | Tick          // case <-ticker.C
    | Cancel        // case <-ctx.Done()
    | DrainOne      // case e := <-w.ch of the inner select
    | DrainEnd      // default of the inner select: flush and return

  datatype State<E> = State(
    phase: Phase, ch: seq<E>, buf: seq<E>, batches: seq<Batch<E>>, accepted: seq<E>, dropped: seq<E>)

  datatype Config = Config(capacity: nat, batchSize: nat)

  const AUDIT_CAPACITY: nat := 4096
  const ALERT := Config(2048, 32)

  /** audit.New: a batch size that is not positive becomes 50. */
  function AuditConfig(batchSize: int): (cfg: Config)
    ensures cfg.batchSize > 0
  {
    Config(AUDIT_CAPACITY, if batchSize <= 0 then 50 else batchSize)
  }

  predicate Enabled<E>(st: State<E>, ev: Event<E>) {
    match ev
    case Enqueue(_) => true
    case Receive => st.phase == Running && st.ch != []
    case Tick => st.phase == Running
    case Cancel => st.phase == Running
    case DrainOne => st.phase == Draining && st.ch != []
    case DrainEnd => st.phase == Draining && st.ch == []
  }

  function Flush<E>(st: State<E>, atShutdown: bool): State<E> {
    if st.buf == [] then st else st.(batches := st.batches + [Batch(st.buf, atShutdown)], buf := [])
  }

  function Take<E>(st: State<E>): State<E>
    requires st.ch != []
  {
    st.(ch := st.ch[1..], buf := st.buf + [st.ch[0]])
  }

  function Step<E>(cfg: Config, st: State<E>, ev: Event<E>): State<E>
    requires Enabled(st, ev)
  {
    match ev
    case Enqueue(e) =>
      if |st.ch| < cfg.capacity then st.(ch := st.ch + [e], accepted := st.accepted + [e])
      else st.(dropped := st.dropped + [e])
    case Receive => var taken := Take(st); if |taken.buf| >= cfg.batchSize then Flush(taken, false) else taken
    case Tick => Flush(st, false)
    case Cancel => st.(phase := Draining)
    case DrainOne => Take(st)
    case DrainEnd => Flush(st, true).(phase := Stopped)
  }

  function Start<E>(): State<E> {
    State(Running, [], [], [], [], [])
  }

  /** The run can happen: every event was enabled when it came. */
  predicate CanRun<E>(cfg: Config, st: State<E>, evs: seq<Event<E>>)
    decreases |evs|
  {
    evs == [] || (Enabled(st, evs[0]) && CanRun(cfg, Step(cfg, st, evs[0]), evs[1..]))
  }

  function After<E>(cfg: Config, st: State<E>, evs: seq<Event<E>>): State<E>
    requires CanRun(cfg, st, evs)
    decreases |evs|
  {
    if evs == [] then st else After(cfg, Step(cfg, st, evs[0]), evs[1..])
  }

  // ---------- what every run keeps ----------

  function Delivered<E>(batches: seq<Batch<E>>): seq<E> {
    if batches == [] then [] else Delivered(batches[..|batches|-1]) + batches[|batches|-1].entries
  }

  predicate Bounded<E>(cfg: Config, b: Batch<E>) {
    1 <= |b.entries| && (!b.atShutdown ==> |b.entries| <= cfg.batchSize)
  }

  /** Nothing accepted is lost, duplicated or reordered. */
  ghost predicate Conserved<E>(st: State<E>) {
    st.accepted == Delivered(st.batches) + st.buf + st.ch
  }

  /** Only the last batch of a run that has ended may be the one flushed at shutdown. */
  predicate GoodBatches<E>(cfg: Config, batches: seq<Batch<E>>, ended: bool) {
    forall k | 0 <= k < |batches| ::
      Bounded(cfg, batches[k]) && (batches[k].atShutdown ==> ended && k == |batches| - 1)
  }

  ghost predicate Inv<E>(cfg: Config, st: State<E>) {
    && Conserved(st)
    && |st.ch| <= cfg.capacity
    && (st.phase == Running ==> |st.buf| < cfg.batchSize)
    && (st.phase == Stopped ==> st.buf == [])
    && GoodBatches(cfg, st.batches, st.phase == Stopped)
  }

  lemma FlushKeeps<E>(cfg: Config, st: State<E>, atShutdown: bool)
    requires Conserved(st) && GoodBatches(cfg, st.batches, false)
    requires !atShutdown ==> |st.buf| <= cfg.batchSize
    ensures var next := Flush(st, atShutdown);
            Conserved(next) && GoodBatches(cfg, next.batches, atShutdown) && next.buf == []
  {
    var next := Flush(st, atShutdown);
    if st.buf != [] {
      assert next.batches[..|next.batches|-1] == st.batches;
      assert forall k | 0 <= k < |st.batches| :: next.batches[k] == st.batches[k];
      assert Delivered(next.batches) + [] == Delivered(st.batches) + st.buf;
    }
  }

  lemma TakeKeeps<E>(st: State<E>)
    requires st.ch != [] && Conserved(st)
    ensures Conserved(Take(st))
  {
    HeadMoves(Delivered(st.batches), st.buf, st.ch);
  }

  lemma HeadMoves<E>(a: seq<E>, b: seq<E>, c: seq<E>)
    requires c != []
    ensures a + b + c == a + (b + [c[0]]) + c[1..]
  {
    assert c == [c[0]] + c[1..];
  }

  lemma EnqueueKeeps<E>(st: State<E>, e: E)
    requires Conserved(st)
    ensures Conserved(st.(ch := st.ch + [e], accepted := st.accepted + [e]))
  {
    Text.Regroup(Delivered(st.batches) + st.buf, st.ch, [e]);
  }

  lemma StepKeeps<E>(cfg: Config, st: State<E>, ev: Event<E>)
    requires cfg.batchSize > 0 && Enabled(st, ev) && Inv(cfg, st)
    ensures Inv(cfg, Step(cfg, st, ev))
  {
    hide Conserved, GoodBatches;
    match ev
    case Enqueue(e) =>
      EnqueueKeeps(st, e);
      if |st.ch| >= cfg.capacity { DropKeeps(st, e); }
    case Receive =>
      TakeKeeps(st);
      if |Take(st).buf| >= cfg.batchSize { FlushKeeps(cfg, Take(st), false); }
    case Tick => FlushKeeps(cfg, st, false);
    case Cancel => PhaseKeeps(st, Draining);
    case DrainOne => TakeKeeps(st);
    case DrainEnd =>
      FlushKeeps(cfg, st, true);
      PhaseKeeps(Flush(st, true), Stopped);
  }

  lemma DropKeeps<E>(st: State<E>, e: E)
    requires Conserved(st)
    ensures Conserved(st.(dropped := st.dropped + [e]))
  {
  }

  lemma PhaseKeeps<E>(st: State<E>, phase: Phase)
    requires Conserved(st)
    ensures Conserved(st.(phase := phase))
  {
  }

  lemma {:induction false} RunKeeps<E>(cfg: Config, st: State<E>, evs: seq<Event<E>>)
    requires cfg.batchSize > 0 && CanRun(cfg, st, evs) && Inv(cfg, st)
    ensures Inv(cfg, After(cfg, st, evs))
    decreases |evs|
  {
    if evs != [] {
      StepKeeps(cfg, st, evs[0]);
      RunKeeps(cfg, Step(cfg, st, evs[0]), evs[1..]);
    }
  }

  /** Every reachable state. */
  lemma Reachable<E>(cfg: Config, evs: seq<Event<E>>)
    requires cfg.batchSize > 0 && CanRun(cfg, Start(), evs)
    ensures Inv(cfg, After(cfg, Start(), evs))
  {
    RunKeeps(cfg, Start(), evs);
  }

  /** The audit writer: at most 4096 entries wait, and a batch has at most the configured number, 50 by default. */
  lemma AuditBounds<E>(batchSize: int, evs: seq<Event<E>>)
    requires CanRun(AuditConfig(batchSize), Start(), evs)
    ensures var st := After(AuditConfig(batchSize), Start(), evs);
            && |st.ch| <= 4096
            && forall k | 0 <= k < |st.batches| && !st.batches[k].atShutdown ::
                 1 <= |st.batches[k].entries| <= if batchSize <= 0 then 50 else batchSize
  {
    Reachable(AuditConfig(batchSize), evs);
  }

  /** The alert writer: at most 2048 alerts wait, and a batch has at most 32. */
  lemma AlertBounds<E>(evs: seq<Event<E>>)
    requires CanRun(ALERT, Start(), evs)
    ensures var st := After(ALERT, Start(), evs);
            && |st.ch| <= 2048
            && forall k | 0 <= k < |st.batches| && !st.batches[k].atShutdown :: 1 <= |st.batches[k].entries| <= 32
  {
    Reachable(ALERT, evs);
  }

  function Tried<E>(ev: Event<E>): seq<E> {
    if ev.Enqueue? then [ev.e] else []
  }

  function Offered<E>(evs: seq<Event<E>>): seq<E> {
    if evs == [] then [] else Tried(evs[0]) + Offered(evs[1..])
  }

  ghost function Seen<E>(st: State<E>): multiset<E> {
    multiset(st.accepted) + multiset(st.dropped)
  }

  lemma StepOffers<E>(cfg: Config, st: State<E>, ev: Event<E>)
    requires Enabled(st, ev)
    ensures Seen(Step(cfg, st, ev)) == Seen(st) + multiset(Tried(ev))
  {
  }

  /** Every offer is accepted or dropped, once. */
  lemma {:induction false} OffersAccountedFor<E>(cfg: Config, st: State<E>, evs: seq<Event<E>>)
    requires CanRun(cfg, st, evs)
    ensures Seen(After(cfg, st, evs)) == Seen(st) + multiset(Offered(evs))
    decreases |evs|
  {
    if evs != [] {
      hide Seen;
      StepOffers(cfg, st, evs[0]);
      OffersAccountedFor(cfg, Step(cfg, st, evs[0]), evs[1..]);
    }
  }

  /** With room in the channel nothing is dropped. */
  lemma DropOnlyWhenFull<E>(cfg: Config, st: State<E>, ev: Event<E>)
    requires Enabled(st, ev) && Inv(cfg, st)
    ensures Step(cfg, st, ev).dropped != st.dropped <==> ev.Enqueue? && |st.ch| == cfg.capacity
  {
  }

  /** No offer of the run finds the channel full. */
  predicate NeverFull<E>(cfg: Config, st: State<E>, evs: seq<Event<E>>)
    requires CanRun(cfg, st, evs)
    decreases |evs|
  {
    evs == [] ||
    ((evs[0].Enqueue? ==> |st.ch| < cfg.capacity) && NeverFull(cfg, Step(cfg, st, evs[0]), evs[1..]))
  }

  lemma {:induction false} DropsOnlyGrow<E>(cfg: Config, st: State<E>, evs: seq<Event<E>>)
    requires CanRun(cfg, st, evs)
    ensures |st.dropped| <= |After(cfg, st, evs).dropped|
    decreases |evs|
  {
    if evs != [] {
      DropsOnlyGrow(cfg, Step(cfg, st, evs[0]), evs[1..]);
    }
  }

  /** A run drops nothing, and accepts all that is offered in order, if and only if no offer finds the channel full. */
  lemma {:induction false} AcceptedExactly<E>(cfg: Config, st: State<E>, evs: seq<Event<E>>)
    requires CanRun(cfg, st, evs)
    ensures var end := After(cfg, st, evs);
            && (end.dropped == st.dropped <==> NeverFull(cfg, st, evs))
            && (NeverFull(cfg, st, evs) ==> end.accepted == st.accepted + Offered(evs))
    decreases |evs|
  {
    if evs == [] {
      assert st.accepted + [] == st.accepted;
    } else {
      var next := Step(cfg, st, evs[0]);
      AcceptedExactly(cfg, next, evs[1..]);
      DropsOnlyGrow(cfg, next, evs[1..]);
      StepAccepts(cfg, st, evs[0]);
      hide Step, Enabled;
      Text.Regroup(st.accepted, Tried(evs[0]), Offered(evs[1..]));
    }
  }

  lemma StepAccepts<E>(cfg: Config, st: State<E>, ev: Event<E>)
    requires Enabled(st, ev)
    ensures var next := Step(cfg, st, ev);
            if ev.Enqueue? && |st.ch| >= cfg.capacity then |next.dropped| == |st.dropped| + 1
            else next.dropped == st.dropped && next.accepted == st.accepted + Tried(ev)
  {
    assert st.accepted + [] == st.accepted;
  }

  // ---------- when entries are delivered ----------

  lemma {:induction false} RunSplit<E>(cfg: Config, st: State<E>, evs: seq<Event<E>>)
    requires CanRun(cfg, st, evs) && evs != []
    ensures var before, last := evs[..|evs|-1], evs[|evs|-1];
            && CanRun(cfg, st, before) && Enabled(After(cfg, st, before), last)
            && After(cfg, st, evs) == Step(cfg, After(cfg, st, before), last)
    decreases |evs|
  {
    if |evs| == 1 {
      assert evs[..0] == [] && evs[1..] == [];
    } else {
      var next := Step(cfg, st, evs[0]);
      RunSplit(cfg, next, evs[1..]);
      assert evs[1..][..|evs|-2] == evs[..|evs|-1][1..];
    }
  }

  /** After a tick nothing waits in the buffer: what was accepted has been delivered, but for the channel. */
  lemma TickDelivers<E>(cfg: Config, evs: seq<Event<E>>)
    requires cfg.batchSize > 0 && CanRun(cfg, Start(), evs) && evs != [] && evs[|evs|-1] == Tick
    ensures var st := After(cfg, Start(), evs);
            && st.buf == [] && st.accepted == Delivered(st.batches) + st.ch
            && st.phase == Running
  {
    RunSplit(cfg, Start(), evs);
    Reachable(cfg, evs);
    var st := After(cfg, Start(), evs);
    assert Delivered(st.batches) + [] == Delivered(st.batches);
  }

  /** The batches are the same, or there is one more, with these entries. */
  ghost predicate OneMore<E>(before: seq<Batch<E>>, after: seq<Batch<E>>, entries: seq<E>) {
    |after| == |before| + 1 && after[..|before|] == before && after[|before|].entries == entries
  }

  /**
   What a step delivers: a receive delivers a batch exactly if it fills the buffer, and
   that batch is full; a tick and the end of Run deliver what is in the buffer, if
   anything is; no other step delivers.
  */
  lemma DeliveredBy<E>(cfg: Config, evs: seq<Event<E>>, ev: Event<E>)
    requires cfg.batchSize > 0 && CanRun(cfg, Start(), evs) && Enabled(After(cfg, Start(), evs), ev)
    ensures var st := After(cfg, Start(), evs);
            var after := Step(cfg, st, ev).batches;
            if ev == Receive && |st.buf| + 1 == cfg.batchSize then
              OneMore(st.batches, after, st.buf + [st.ch[0]]) && |after[|st.batches|].entries| == cfg.batchSize
            else if (ev == Tick || ev == DrainEnd) && st.buf != [] then OneMore(st.batches, after, st.buf)
            else after == st.batches
  {
    Reachable(cfg, evs);
    hide Conserved, GoodBatches;
  }

  // ---------- shutdown ----------

  /** The worker's own events from a cancelled state to its return. */
  function Drain<E>(n: nat): seq<Event<E>> {
    seq(n, i => DrainOne) + [DrainEnd]
  }

  /** Once producers are silent, draining what is queued is all Run still does, and it then returns. */
  lemma {:induction false} DrainReturns<E>(cfg: Config, st: State<E>)
    requires cfg.batchSize > 0 && Inv(cfg, st) && st.phase == Draining
    ensures var evs := Drain(|st.ch|);
            && CanRun(cfg, st, evs)
            && (var end := After(cfg, st, evs);
                end.phase == Stopped && end.ch == [] && Delivered(end.batches) == end.accepted == st.accepted)
    decreases |st.ch|
  {
    var evs: seq<Event<E>> := Drain(|st.ch|);
    if st.ch == [] {
      StepKeeps(cfg, st, DrainEnd);
      assert evs == [DrainEnd];
      assert CanRun(cfg, Step(cfg, st, DrainEnd), evs[1..]);
    } else {
      StepKeeps(cfg, st, DrainOne);
      DrainReturns(cfg, Take(st));
      assert evs[0] == DrainOne && evs[1..] == Drain(|st.ch| - 1);
    }
  }

  /** With no offer after Run has returned, everything accepted has been delivered, in order. */
  lemma {:induction false} ShutdownDelivers<E>(cfg: Config, st: State<E>, evs: seq<Event<E>>)
    requires cfg.batchSize > 0 && Inv(cfg, st) && CanRun(cfg, st, evs)
    requires evs != [] && evs[|evs|-1] == DrainEnd
    ensures var end := After(cfg, st, evs); end.phase == Stopped && Delivered(end.batches) == end.accepted
    decreases |evs|
  {
    StepKeeps(cfg, st, evs[0]);
    if |evs| > 1 {
      assert evs[1..][|evs|-2] == evs[|evs|-1];
      ShutdownDelivers(cfg, Step(cfg, st, evs[0]), evs[1..]);
    }
  }

  // ---------- the code ----------

  /**
   The writer together with its worker's buffer. `buf[:0]` keeps the backing array,
   so every batch is written over the one before it; the flush function has consumed
   the slice by the time it returns, and `batches` records what it was given.
  */
  class Writer<E(0)> {
    const cfg: Config
    var phase: Phase
    var ch: seq<E>
    var data: array<E>
    var len: nat
    var batches: seq<Batch<E>>
    ghost var accepted: seq<E>
    ghost var dropped: seq<E>

    ghost predicate Valid()
      reads this, data
    {
      && cfg.batchSize > 0 && len <= data.Length
      && Inv(cfg, Abs())
    }

    ghost function Abs(): State<E>
      requires len <= data.Length
      reads this, data
    {
      State(phase, ch, data[..len], batches, accepted, dropped)
    }

    constructor (cfg: Config)
      requires cfg.batchSize > 0
      ensures Valid() && fresh(data) && this.cfg == cfg && Abs() == Start()
    {
      this.cfg := cfg;
      phase, ch, batches := Running, [], [];
      data, len := new E[cfg.batchSize], 0;
      accepted, dropped := [], [];
    }

    /** append(buf, e): writes into the backing array, or into a larger copy of it. */
    method Append(e: E)
      requires len <= data.Length
      modifies this`data, this`len, data
      ensures len == old(len) + 1 <= data.Length && data[..len] == old(data[..len]) + [e]
      ensures data == old(data) || fresh(data)
    {
      if len == data.Length {
        var bigger := new E[2 * len + 1];
        forall k | 0 <= k < len {
          bigger[k] := data[k];
        }
        data := bigger;
        assert data[..len] == old(data[..len]);
      }
      data[len] := e;
      len := len + 1;
    }

    /** e := <-w.ch, and its append to the buffer. */
    method ReceiveOne()
      requires len <= data.Length && ch != []
      modifies this`ch, this`data, this`len, data
      ensures len <= data.Length && Abs() == Take(old(Abs()))
      ensures data == old(data) || fresh(data)
    {
      var e := ch[0];
      ch := ch[1..];
      Append(e);
    }

    /** The flush closure of Run. */
    method FlushBuffer(atShutdown: bool)
      requires len <= data.Length
      modifies this`batches, this`len
      ensures len <= data.Length && Abs() == Flush(old(Abs()), atShutdown)
    {
      if len == 0 {
        return;
      }
      batches := batches + [Batch(data[..len], atShutdown)];
      len := 0;
    }

    /** Never waits: a full channel drops the entry. */
    method Enqueue(e: E)
      requires Valid()
      modifies this`ch, this`accepted, this`dropped
      ensures Valid() && Abs() == Step(cfg, old(Abs()), Event.Enqueue(e))
    {
      StepKeeps(cfg, Abs(), Event.Enqueue(e));
      if |ch| < cfg.capacity {
        ch := ch + [e];
        accepted := accepted + [e];
      } else {
        dropped := dropped + [e];
      }
    }

    /** One turn of the outer or inner select, as the scheduler chose it. */
    method Turn(ev: Event<E>)
      requires Valid() && Enabled(Abs(), ev)
      modifies this, data
      ensures Valid() && Abs() == Step(cfg, old(Abs()), ev)
      ensures data == old(data) || fresh(data)
    {
      StepKeeps(cfg, Abs(), ev);
      hide Inv;
      match ev
      case Enqueue(e) =>
        Enqueue(e);
      case Receive =>
        ReceiveOne();
        if len >= cfg.batchSize {
          FlushBuffer(false);
        }
      case Tick =>
        FlushBuffer(false);
      case Cancel =>
        phase := Draining;
      case DrainOne =>
        ReceiveOne();
      case DrainEnd =>
        FlushBuffer(true);
        phase := Stopped;
    }

    /** Run and its producers under any schedule. */
    method Run(schedule: seq<Event<E>>)
      requires Valid() && CanRun(cfg, Abs(), schedule)
      modifies this, data
      ensures Valid() && Abs() == After(cfg, old(Abs()), schedule)
    {
      ghost var start := Abs();
      for i := 0 to |schedule|
        invariant Valid() && (data == old(data) || fresh(data))
        invariant CanRun(cfg, Abs(), schedule[i..])
        invariant After(cfg, Abs(), schedule[i..]) == After(cfg, start, schedule)
      {
        assert schedule[i..][0] == schedule[i] && schedule[i..][1..] == schedule[i+1..];
        Turn(schedule[i]);
      }
    }
  }
}
