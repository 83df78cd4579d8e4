/** The whole benchmark: workers, their connections, the streams on them, the rate
recorders and the stop flag, as one transition system over all interleavings.
A worker is a single-threaded runtime, so its recorder wakes up only while all its
tasks are suspended, and none of them steps before it sleeps again; apart from that
any task of any worker may step next. When the recorder sees `stop` the worker ends
and its tasks are dropped as they are. The flag is read with relaxed ordering: a read
may still return the old value after the flag has been set. */
module Accounting {
  import opened Exchanges
  import opened Rates
  import opened Samples
  import opened Words

  /** `streams` is the number of streams per connection; HTTP/1.1 has one. */
  datatype Plan = Plan(cfg: Settings, workers: nat, perWorker: nat, streams: nat)

  /** A connection task; `Outer` is about to test `stop`, `Dialing` is connecting.
      Only HTTP/3 resolves the host name first. */
  datatype Connection =
    | Resolving
    | Outer
    | Dialing
    | Live(streams: seq<Stream>)
    | Closed

  datatype Recorder = Sleeping | Swapped | Finished

  /** `books.started` counts all requests started; `rate` is the part of it the
      recorder has not swapped out yet, `swapped` the sum of what it has. `rates` are
      the arguments of the recorder's calls of `record`. */
  datatype Worker = Worker(
    conns: seq<Connection>, books: Books, rate: nat, swapped: nat, recorder: Recorder, rates: seq<nat>)

  datatype System = System(workers: seq<Worker>, stop: bool)

  /** A step of a connection task or of one of its stream tasks. */
  datatype TaskStep =
    | Resolve(ok: bool)
    | OuterTest(stop: bool)
    | Dial(ok: bool)
    | Rejoin
    | StreamOp(k: nat, op: Op)

  datatype Event =
    | SetStop
    | Swap(w: nat, elapsedMs: nat)
    | RecorderTest(w: nat, stop: bool)
    | Task(w: nat, c: nat, step: TaskStep)

  function FreshWorker(p: Plan): Worker {
    Worker(seq(p.perWorker, _ => if p.cfg.proto.Http3? then Resolving else Outer), BLANK, 0, 0, Sleeping, [])
  }

  function Init(p: Plan): System {
    System(seq(p.workers, _ => FreshWorker(p)), false)
  }

  // ---- steps --------------------------------------------------------------

  /** A task that is not in the middle of being polled. */
  predicate Suspended(st: Stream) {
    st.Loop? || st.InFlight? || st.Ended?
  }

  predicate AllSuspended(conns: seq<Connection>) {
    forall c, k :: 0 <= c < |conns| && conns[c].Live? && 0 <= k < |conns[c].streams| ==>
      Suspended(conns[c].streams[k])
  }

  predicate AllEnded(streams: seq<Stream>) {
    forall k :: 0 <= k < |streams| ==> streams[k].Ended?
  }

  predicate ConnCan(conn: Connection, step: TaskStep) {
    match step
    case Resolve(_) => conn.Resolving?
    case OuterTest(_) => conn.Outer?
    case Dial(_) => conn.Dialing?
    case Rejoin => conn.Live? && AllEnded(conn.streams)
    case StreamOp(k, op) => conn.Live? && k < |conn.streams| && Can(conn.streams[k], op)
  }

  predicate WorkerCan(wk: Worker, ev: Event) {
    match ev
    case SetStop => false
    case Swap(_, _) => wk.recorder.Sleeping? && AllSuspended(wk.conns)
    case RecorderTest(_, _) => wk.recorder.Swapped?
    case Task(_, c, step) => wk.recorder.Sleeping? && c < |wk.conns| && ConnCan(wk.conns[c], step)
  }

  /** What the event read from the stop flag: a set flag only once it has been set. */
  predicate MayRead(stop: bool, ev: Event) {
    match ev
    case RecorderTest(_, read) => read ==> stop
    case Task(_, _, OuterTest(read)) => read ==> stop
    case Task(_, _, StreamOp(_, TestStop(read))) => read ==> stop
    case _ => true
  }

  predicate Enabled(s: System, ev: Event) {
    ev.SetStop? || (ev.w < |s.workers| && WorkerCan(s.workers[ev.w], ev) && MayRead(s.stop, ev))
  }

  function ConnNext(p: Plan, conn: Connection, step: TaskStep): Connection
    requires ConnCan(conn, step)
  {
    match step
    case Resolve(ok) => if ok then Outer else Closed
    case OuterTest(stop) => if stop then Closed else Dialing
    case Dial(ok) => if ok then Live(seq(p.streams, _ => Loop(0))) else Outer
    case Rejoin => Outer
    case StreamOp(k, op) => Live(conn.streams[k := StreamNext(p.cfg, conn.streams[k], op)])
  }

  /** What the step posts. */
  function ConnPosting(p: Plan, conn: Connection, step: TaskStep): Books
    requires ConnCan(conn, step)
  {
    match step
    case Resolve(ok) => if ok then BLANK else BLANK.(tally := NOTHING.(errorsConnect := 1))
    case Dial(ok) => if ok then BLANK else BLANK.(tally := NOTHING.(errorsConnect := 1))
    case StreamOp(k, op) => Posting(p.cfg, conn.streams[k], op)
    case _ => BLANK
  }

  function WorkerNext(p: Plan, wk: Worker, ev: Event): Worker
    requires WorkerCan(wk, ev)
  {
    match ev
    case SetStop => wk
    case Swap(_, elapsedMs) =>
      wk.(rate := 0, swapped := wk.swapped + wk.rate, recorder := Swapped,
          rates := wk.rates + RateList(wk.rate, elapsedMs))
    case RecorderTest(_, stop) => wk.(recorder := if stop then Finished else Sleeping)
    case Task(_, c, step) =>
      var posting := ConnPosting(p, wk.conns[c], step);
      wk.(conns := wk.conns[c := ConnNext(p, wk.conns[c], step)],
          books := wk.books.Plus(posting),
          rate := wk.rate + posting.started)
  }

  function Next(p: Plan, s: System, ev: Event): System
    requires Enabled(s, ev)
  {
    if ev.SetStop? then s.(stop := true)
    else s.(workers := s.workers[ev.w := WorkerNext(p, s.workers[ev.w], ev)])
  }

  function Run(p: Plan, evs: seq<Event>): Option<System> {
    if evs == [] then Some(Init(p))
    else
      match Run(p, evs[..|evs| - 1])
      case None => None
      case Some(s) => if Enabled(s, evs[|evs| - 1]) then Some(Next(p, s, evs[|evs| - 1])) else None
  }

  // ---- ledgers over a worker ----------------------------------------------

  function StreamsPending(cfg: Settings, l: Ledger, streams: seq<Stream>): int {
    if streams == [] then 0
    else StreamsPending(cfg, l, streams[..|streams| - 1]) + Pending(cfg, l, streams[|streams| - 1])
  }

  function ConnPending(cfg: Settings, l: Ledger, conn: Connection): int {
    if conn.Live? then StreamsPending(cfg, l, conn.streams) else 0
  }

  function ConnsPending(cfg: Settings, l: Ledger, conns: seq<Connection>): int {
    if conns == [] then 0
    else ConnsPending(cfg, l, conns[..|conns| - 1]) + ConnPending(cfg, l, conns[|conns| - 1])
  }

  function StepEntry(cfg: Settings, l: Ledger, step: TaskStep): int {
    match step
    case Resolve(ok) => One(l.ConnectErrors? && !ok)
    case Dial(ok) => One(l.ConnectErrors? && !ok)
    case StreamOp(_, op) => Entry(cfg, l, op)
    case _ => 0
  }

  /** What an event means for worker `w`. */
  function EventEntry(cfg: Settings, l: Ledger, w: nat, ev: Event): int {
    if ev.Task? && ev.w == w then StepEntry(cfg, l, ev.step) else 0
  }

  /** What happened on worker `w`, read off the trace alone. */
  function Traced(cfg: Settings, l: Ledger, w: nat, evs: seq<Event>): int {
    if evs == [] then 0
    else Traced(cfg, l, w, evs[..|evs| - 1]) + EventEntry(cfg, l, w, evs[|evs| - 1])
  }

  lemma {:induction false} StreamsPendingUpdate(cfg: Settings, l: Ledger, streams: seq<Stream>, k: nat, st: Stream)
    requires k < |streams|
    ensures StreamsPending(cfg, l, streams[k := st])
         == StreamsPending(cfg, l, streams) - Pending(cfg, l, streams[k]) + Pending(cfg, l, st)
  {
    hide Pending;
    var n := |streams| - 1;
    if k < n {
      StreamsPendingUpdate(cfg, l, streams[..n], k, st);
      assert streams[k := st][..n] == streams[..n][k := st];
    } else {
      assert streams[k := st][..n] == streams[..n];
    }
  }

  lemma {:induction false} ConnsPendingUpdate(
    cfg: Settings, l: Ledger, conns: seq<Connection>, c: nat, conn: Connection)
    requires c < |conns|
    ensures ConnsPending(cfg, l, conns[c := conn])
         == ConnsPending(cfg, l, conns) - ConnPending(cfg, l, conns[c]) + ConnPending(cfg, l, conn)
  {
    hide ConnPending;
    var n := |conns| - 1;
    if c < n {
      ConnsPendingUpdate(cfg, l, conns[..n], c, conn);
      assert conns[c := conn][..n] == conns[..n][c := conn];
    } else {
      assert conns[c := conn][..n] == conns[..n];
    }
  }

  lemma {:induction false} NothingPending(cfg: Settings, l: Ledger, streams: seq<Stream>)
    requires forall k :: 0 <= k < |streams| ==> Pending(cfg, l, streams[k]) == 0
    ensures StreamsPending(cfg, l, streams) == 0
  {
    hide Pending;
    if streams == [] {
    } else {
      NothingPending(cfg, l, streams[..|streams| - 1]);
    }
  }

  lemma {:induction false} NoConnPending(cfg: Settings, l: Ledger, conns: seq<Connection>)
    requires forall c :: 0 <= c < |conns| ==> ConnPending(cfg, l, conns[c]) == 0
    ensures ConnsPending(cfg, l, conns) == 0
  {
    hide ConnPending;
    if conns == [] {
    } else {
      NoConnPending(cfg, l, conns[..|conns| - 1]);
    }
  }

  // ---- the invariant ------------------------------------------------------

  ghost predicate StreamsOk(p: Plan, streams: seq<Stream>) {
    && |streams| == p.streams
    && (forall k :: 0 <= k < |streams| && streams[k].Bytes? ==> p.cfg.proto.Http3?)
  }

  ghost predicate WorkerOk(p: Plan, wk: Worker) {
    && |wk.conns| == p.perWorker
    && (forall c :: 0 <= c < |wk.conns| && wk.conns[c].Live? ==> StreamsOk(p, wk.conns[c].streams))
    && wk.books.started == wk.rate + wk.swapped
    && (!wk.recorder.Sleeping? ==> AllSuspended(wk.conns) && wk.rate == 0)
  }

  ghost predicate Balanced(p: Plan, l: Ledger, wk: Worker, traced: int) {
    Posted(l, wk.books) + ConnsPending(p.cfg, l, wk.conns) == traced
  }

  lemma FreshBalanced(p: Plan, l: Ledger)
    ensures WorkerOk(p, FreshWorker(p)) && Balanced(p, l, FreshWorker(p), 0)
  {
    NoConnPending(p.cfg, l, FreshWorker(p).conns);
  }

  /** A connection's step balances its streams against what it posts. */
  lemma ConnBalances(p: Plan, conn: Connection, step: TaskStep, l: Ledger)
    requires ConnCan(conn, step) && (conn.Live? ==> StreamsOk(p, conn.streams))
    ensures var conn' := ConnNext(p, conn, step);
      && (conn'.Live? ==> StreamsOk(p, conn'.streams))
      && Posted(l, ConnPosting(p, conn, step)) + ConnPending(p.cfg, l, conn')
         == ConnPending(p.cfg, l, conn) + StepEntry(p.cfg, l, step)
  {
    match step
    case StreamOp(k, op) =>
      var st := conn.streams[k];
      StepBalances(p.cfg, l, st, op);
      StreamsPendingUpdate(p.cfg, l, conn.streams, k, StreamNext(p.cfg, st, op));
      hide Posting, StreamNext, Posted, Pending, Entry;
    case Dial(ok) =>
      BlankPosted(l);
      if ok {
        NothingPending(p.cfg, l, seq(p.streams, _ => Loop(0)));
      }
    case Rejoin =>
      BlankPosted(l);
      NothingPending(p.cfg, l, conn.streams);
    case _ =>
      BlankPosted(l);
  }

  lemma BlankPosted(l: Ledger)
    ensures Posted(l, BLANK) == 0
    ensures Posted(l, BLANK.(tally := NOTHING.(errorsConnect := 1))) == One(l.ConnectErrors?)
  {
  }

  lemma WorkerBalances(p: Plan, wk: Worker, ev: Event, l: Ledger, traced: int)
    requires WorkerOk(p, wk) && WorkerCan(wk, ev) && Balanced(p, l, wk, traced)
    ensures WorkerOk(p, WorkerNext(p, wk, ev))
    ensures Balanced(p, l, WorkerNext(p, wk, ev), traced + EventEntry(p.cfg, l, ev.w, ev))
  {
    if ev.Task? {
      var conn := wk.conns[ev.c];
      ConnBalances(p, conn, ev.step, l);
      ConnsPendingUpdate(p.cfg, l, wk.conns, ev.c, ConnNext(p, conn, ev.step));
      PostedPlus(l, wk.books, ConnPosting(p, conn, ev.step));
      hide Posted, ConnPending, ConnNext, ConnPosting, StepEntry, StreamsOk, ConnCan;
    }
  }

  /** The main law. On every run, for every worker and every ledger: what is posted
      plus what the worker's streams still owe is what the trace says happened. */
  lemma {:induction false} Conservation(p: Plan, evs: seq<Event>, l: Ledger, w: nat)
    requires Run(p, evs).Some? && w < p.workers
    ensures var s := Run(p, evs).value;
      && |s.workers| == p.workers
      && WorkerOk(p, s.workers[w])
      && Balanced(p, l, s.workers[w], Traced(p.cfg, l, w, evs))
  {
    if evs == [] {
      FreshBalanced(p, l);
    } else {
      var before, ev := evs[..|evs| - 1], evs[|evs| - 1];
      Conservation(p, before, l, w);
      var s := Run(p, before).value;
      if !ev.SetStop? && ev.w == w {
        WorkerBalances(p, s.workers[w], ev, l, Traced(p.cfg, l, w, before));
      }
    }
  }

  // ---- what it means for one worker ---------------------------------------

  lemma {:induction false} TracedFlights(cfg: Settings, w: nat, evs: seq<Event>)
    ensures Traced(cfg, Flights, w, evs) == Traced(cfg, Requests, w, evs) - Traced(cfg, Completed, w, evs)
  {
    if evs == [] {
    } else {
      TracedFlights(cfg, w, evs[..|evs| - 1]);
    }
  }

  /** Requests: what the recorder swapped out plus what it has not yet is what was
      started, and every started request was answered, failed, or is in flight. Once
      the worker has ended, the recorder has swapped out every one of them. */
  lemma RequestsConserved(p: Plan, evs: seq<Event>, w: nat)
    requires Run(p, evs).Some? && w < p.workers
    ensures var s := Run(p, evs).value;
      && w < |s.workers|
      && var wk := s.workers[w];
      && wk.swapped + wk.rate == Traced(p.cfg, Requests, w, evs)
      && wk.swapped + wk.rate == Traced(p.cfg, Completed, w, evs)
           + wk.books.tally.errorsWrite + wk.books.tally.errorsRead
           + ConnsPending(p.cfg, Flights, wk.conns)
      && (wk.recorder.Finished? ==> wk.rate == 0 && wk.swapped == Traced(p.cfg, Requests, w, evs))
  {
    Conservation(p, evs, Requests, w);
    Conservation(p, evs, Flights, w);
    TracedFlights(p.cfg, w, evs);
    NoRequestsPending(p.cfg, Run(p, evs).value.workers[w].conns);
  }

  lemma NoRequestsPending(cfg: Settings, conns: seq<Connection>)
    ensures ConnsPending(cfg, Requests, conns) == 0
  {
    forall c | 0 <= c < |conns| ensures ConnPending(cfg, Requests, conns[c]) == 0 {
      if conns[c].Live? {
        NothingPending(cfg, Requests, conns[c].streams);
      }
    }
    NoConnPending(cfg, Requests, conns);
  }

  // ---- the recorded rates --------------------------------------------------

  /** Requests started on worker `w` since its recorder last swapped the counter. */
  function SinceSwap(w: nat, evs: seq<Event>): nat {
    if evs == [] then 0
    else
      var before, ev := evs[..|evs| - 1], evs[|evs| - 1];
      if ev.Swap? && ev.w == w then 0
      else SinceSwap(w, before) + (if IsStart(w, ev) then 1 else 0)
  }

  predicate IsStart(w: nat, ev: Event) {
    ev.Task? && ev.w == w && ev.step.StreamOp? && ev.step.op.StartRequest?
  }

  /** The intervals of the recorder of worker `w`, read off the trace alone. */
  function TicksOf(w: nat, evs: seq<Event>): seq<Tick> {
    if evs == [] then []
    else
      var before, ev := evs[..|evs| - 1], evs[|evs| - 1];
      var ticks := TicksOf(w, before);
      if ev.Swap? && ev.w == w then ticks + [Tick(SinceSwap(w, before), ev.elapsedMs, false)]
      else if ev.RecorderTest? && ev.w == w && ticks != [] then WithFlag(ticks, ev.stop)
      else ticks
  }

  /** The last interval with the flag read after it. */
  function WithFlag(ticks: seq<Tick>, stop: bool): seq<Tick>
    requires ticks != []
  {
    ticks[..|ticks| - 1] + [ticks[|ticks| - 1].(stop := stop)]
  }

  lemma FlagOnly(ticks: seq<Tick>, stop: bool)
    requires ticks != [] && !Stopped(ticks)
    ensures SwappedOf(WithFlag(ticks, stop)) == SwappedOf(ticks)
    ensures RatesOf(WithFlag(ticks, stop)) == RatesOf(ticks)
    ensures Stopped(WithFlag(ticks, stop)) <==> stop
  {
    var before, last := ticks[..|ticks| - 1], ticks[|ticks| - 1];
    assert ticks == before + [last];
    assert forall k :: 0 <= k < |before| ==> before[k] == ticks[k];
    assert !Stopped(before) && !last.stop;
    OneMoreTick(before, last);
    OneMoreTick(before, last.(stop := stop));
  }

  /** What the recorder of a worker has done, against its intervals. */
  ghost predicate RecorderOk(wk: Worker, ticks: seq<Tick>, since: nat) {
    && wk.rate == since
    && wk.swapped == SwappedOf(ticks)
    && wk.rates == RatesOf(ticks)
    && (Stopped(ticks) <==> wk.recorder.Finished?)
    && (wk.recorder.Swapped? ==> ticks != [])
  }

  /** On every run the recorder of a worker swaps out, interval by interval, the
      requests started in it, and records the rate of each that was not idle; the
      worker ends with the first interval after which the flag was read as set. */
  lemma RatesOfRun(p: Plan, evs: seq<Event>, w: nat)
    requires Run(p, evs).Some? && w < p.workers
    ensures var s, ticks := Run(p, evs).value, TicksOf(w, evs);
      && w < |s.workers|
      && s.workers[w].rate == SinceSwap(w, evs)
      && s.workers[w].swapped == SwappedOf(ticks) == RequestsIn(Busy(ticks))
      && (s.workers[w].recorder.Finished? <==> Stopped(ticks))
      && |s.workers[w].rates| == |Busy(ticks)|
      && forall i :: 0 <= i < |Busy(ticks)| ==>
           s.workers[w].rates[i] == Min(Busy(ticks)[i].reqs * 1000 / Max(Busy(ticks)[i].elapsedMs, 1), U64_MAX)
  {
    hide Run, TicksOf, RatesOf, Busy, SwappedOf, Stopped, SinceSwap;
    RecorderRuns(p, evs, w);
    RatesAreQuotients(TicksOf(w, evs));
  }

  lemma {:induction false} RecorderRuns(p: Plan, evs: seq<Event>, w: nat)
    requires Run(p, evs).Some? && w < p.workers
    ensures var s := Run(p, evs).value;
      w < |s.workers| && RecorderOk(s.workers[w], TicksOf(w, evs), SinceSwap(w, evs))
  {
    if evs == [] {
    } else {
      var before, ev := evs[..|evs| - 1], evs[|evs| - 1];
      RecorderRuns(p, before, w);
      var s := Run(p, before).value;
      if !ev.SetStop? && ev.w == w {
        RecorderStep(p, s.workers[w], ev, TicksOf(w, before), SinceSwap(w, before));
      }
    }
  }

  lemma RecorderStep(p: Plan, wk: Worker, ev: Event, ticks: seq<Tick>, since: nat)
    requires WorkerCan(wk, ev) && RecorderOk(wk, ticks, since) && !ev.SetStop?
    ensures ev.RecorderTest? ==> ticks != []
    ensures var wk' := WorkerNext(p, wk, ev);
      match ev
      case Swap(_, elapsedMs) => RecorderOk(wk', ticks + [Tick(since, elapsedMs, false)], 0)
      case RecorderTest(_, stop) => RecorderOk(wk', WithFlag(ticks, stop), since)
      case Task(w, _, _) => RecorderOk(wk', ticks, since + (if IsStart(w, ev) then 1 else 0))
      case SetStop => true
  {
    hide RatesOf, SwappedOf, Stopped, RateList, WithFlag;
    match ev
    case Swap(_, elapsedMs) => OneMoreTick(ticks, Tick(since, elapsedMs, false));
    case RecorderTest(_, stop) => FlagOnly(ticks, stop);
    case Task(_, _, _) =>
  }

  lemma {:induction false} FlightsOfStreams(cfg: Settings, streams: seq<Stream>)
    ensures 0 <= StreamsPending(cfg, Flights, streams) <= |streams|
  {
    if streams == [] {
    } else {
      FlightsOfStreams(cfg, streams[..|streams| - 1]);
    }
  }

  lemma {:induction false} FlightsOfConns(cfg: Settings, conns: seq<Connection>, streams: nat)
    requires forall c :: 0 <= c < |conns| && conns[c].Live? ==> |conns[c].streams| == streams
    ensures 0 <= ConnsPending(cfg, Flights, conns) <= |conns| * streams
  {
    if conns == [] {
    } else {
      var n := |conns| - 1;
      FlightsOfConns(cfg, conns[..n], streams);
      if conns[n].Live? {
        FlightsOfStreams(cfg, conns[n].streams);
      }
      assert |conns| * streams == n * streams + streams;
    }
  }

  /** A connection awaits all its streams before it reconnects, so a worker never
      has more than `perWorker * streams` requests in flight. */
  lemma InFlightBounded(p: Plan, evs: seq<Event>, w: nat)
    requires Run(p, evs).Some? && w < p.workers
    ensures var s := Run(p, evs).value;
      && w < |s.workers|
      && 0 <= ConnsPending(p.cfg, Flights, s.workers[w].conns) <= p.perWorker * p.streams
  {
    Conservation(p, evs, Flights, w);
    FlightsOfConns(p.cfg, Run(p, evs).value.workers[w].conns, p.streams);
  }

  /** Ledgers to which a suspended stream owes nothing. */
  predicate Settled(l: Ledger) {
    !l.Completed? && !l.Flights?
  }

  lemma SuspendedOwesNothing(cfg: Settings, l: Ledger, conns: seq<Connection>)
    requires AllSuspended(conns) && Settled(l)
    ensures ConnsPending(cfg, l, conns) == 0
  {
    forall c | 0 <= c < |conns| ensures ConnPending(cfg, l, conns[c]) == 0 {
      if conns[c].Live? {
        forall k | 0 <= k < |conns[c].streams| ensures Pending(cfg, l, conns[c].streams[k]) == 0 {
          assert Suspended(conns[c].streams[k]);
        }
        NothingPending(cfg, l, conns[c].streams);
      }
    }
    NoConnPending(cfg, l, conns);
  }

  /** When a worker has ended, its snapshot agrees with the trace in everything but
      `complete`, which lacks exactly the locals of the streams dropped unflushed. */
  lemma SnapshotOfFinishedWorker(p: Plan, evs: seq<Event>, w: nat, l: Ledger)
    requires Run(p, evs).Some? && w < p.workers
    requires w < |Run(p, evs).value.workers|
    requires Run(p, evs).value.workers[w].recorder.Finished?
    ensures var wk := Run(p, evs).value.workers[w];
      && (Settled(l) ==> Posted(l, wk.books) == Traced(p.cfg, l, w, evs))
      && wk.books.tally.complete + ConnsPending(p.cfg, Completed, wk.conns) == Traced(p.cfg, Completed, w, evs)
  {
    Conservation(p, evs, l, w);
    Conservation(p, evs, Completed, w);
    if Settled(l) {
      SuspendedOwesNothing(p.cfg, l, Run(p, evs).value.workers[w].conns);
    }
  }

  lemma EndedStays(p: Plan, s: System, ev: Event, w: nat)
    requires Enabled(s, ev) && w < |s.workers|
    ensures |Next(p, s, ev).workers| == |s.workers|
    ensures s.workers[w].recorder.Finished? ==> Next(p, s, ev).workers[w] == s.workers[w]
  {
    hide ConnNext, ConnPosting, ConnCan, AllSuspended, RateList;
  }

  /** An ended worker never changes again: its snapshot is final. */
  lemma {:induction false} FinishedIsFinal(p: Plan, evs: seq<Event>, more: seq<Event>, w: nat)
    requires Run(p, evs + more).Some? && w < p.workers
    ensures Run(p, evs).Some?
    ensures var s, s' := Run(p, evs).value, Run(p, evs + more).value;
      && |s.workers| == |s'.workers| == p.workers
      && (s.workers[w].recorder.Finished? ==> s'.workers[w] == s.workers[w])
  {
    if more == [] {
      assert evs + more == evs;
      Conservation(p, evs, Completed, w);
    } else {
      var n := |more| - 1;
      assert (evs + more)[..|evs + more| - 1] == evs + more[..n];
      assert Run(p, evs + more[..n]).Some? && Enabled(Run(p, evs + more[..n]).value, more[n])
        && Run(p, evs + more).value == Next(p, Run(p, evs + more[..n]).value, more[n]);
      hide *;
      FinishedIsFinal(p, evs, more[..n], w);
      EndedStays(p, Run(p, evs + more[..n]).value, more[n], w);
    }
  }

  // ---- all workers together -----------------------------------------------

  /** The sum of the workers' books; its tally is `CounterSnapshot::sum`. */
  function TotalBooks(workers: seq<Worker>): Books {
    if workers == [] then BLANK
    else TotalBooks(workers[..|workers| - 1]).Plus(workers[|workers| - 1].books)
  }

  function TotalPending(cfg: Settings, l: Ledger, workers: seq<Worker>): int {
    if workers == [] then 0
    else TotalPending(cfg, l, workers[..|workers| - 1]) + ConnsPending(cfg, l, workers[|workers| - 1].conns)
  }

  function TotalTraced(cfg: Settings, l: Ledger, workers: nat, evs: seq<Event>): int {
    if workers == 0 then 0
    else TotalTraced(cfg, l, workers - 1, evs) + Traced(cfg, l, workers - 1, evs)
  }

  lemma {:induction false} TotalsBalance(cfg: Settings, l: Ledger, workers: seq<Worker>, evs: seq<Event>)
    requires forall w :: 0 <= w < |workers| ==>
      Posted(l, workers[w].books) + ConnsPending(cfg, l, workers[w].conns) == Traced(cfg, l, w, evs)
    ensures Posted(l, TotalBooks(workers)) + TotalPending(cfg, l, workers)
         == TotalTraced(cfg, l, |workers|, evs)
  {
    if workers == [] {
      BlankPosted(l);
    } else {
      var n := |workers| - 1;
      TotalsBalance(cfg, l, workers[..n], evs);
      PostedPlus(l, TotalBooks(workers[..n]), workers[n].books);
    }
  }

  /** The main law, summed over all workers. */
  lemma TotalConservation(p: Plan, evs: seq<Event>, l: Ledger)
    requires Run(p, evs).Some?
    ensures var s := Run(p, evs).value;
      Posted(l, TotalBooks(s.workers)) + TotalPending(p.cfg, l, s.workers)
        == TotalTraced(p.cfg, l, p.workers, evs)
  {
    WorkerCount(p, evs);
    var s := Run(p, evs).value;
    forall w | 0 <= w < |s.workers|
      ensures Posted(l, s.workers[w].books) + ConnsPending(p.cfg, l, s.workers[w].conns)
           == Traced(p.cfg, l, w, evs)
    {
      Conservation(p, evs, l, w);
    }
    TotalsBalance(p.cfg, l, s.workers, evs);
  }

  lemma {:induction false} WorkerCount(p: Plan, evs: seq<Event>)
    requires Run(p, evs).Some?
    ensures |Run(p, evs).value.workers| == p.workers
  {
    if evs == [] {
    } else {
      WorkerCount(p, evs[..|evs| - 1]);
    }
  }

  ghost predicate AllFinished(s: System) {
    forall w :: 0 <= w < |s.workers| ==> s.workers[w].recorder.Finished?
  }

  lemma {:induction false} NothingTotalPending(cfg: Settings, l: Ledger, workers: seq<Worker>)
    requires forall w :: 0 <= w < |workers| ==> ConnsPending(cfg, l, workers[w].conns) == 0
    ensures TotalPending(cfg, l, workers) == 0
  {
    if workers == [] {
    } else {
      NothingTotalPending(cfg, l, workers[..|workers| - 1]);
    }
  }

  /** When the run is over: all samples and timeouts are in the books, and the sum
      of the snapshots lacks exactly the locals of dropped streams. */
  lemma FinalReport(p: Plan, evs: seq<Event>, l: Ledger)
    requires Run(p, evs).Some? && AllFinished(Run(p, evs).value)
    ensures var s := Run(p, evs).value;
      && (Settled(l) ==> Posted(l, TotalBooks(s.workers)) == TotalTraced(p.cfg, l, p.workers, evs))
      && TotalBooks(s.workers).tally.complete + TotalPending(p.cfg, Completed, s.workers)
         == TotalTraced(p.cfg, Completed, p.workers, evs)
  {
    TotalConservation(p, evs, l);
    TotalConservation(p, evs, Completed);
    WorkerCount(p, evs);
    var s := Run(p, evs).value;
    if Settled(l) {
      forall w | 0 <= w < |s.workers| ensures ConnsPending(p.cfg, l, s.workers[w].conns) == 0 {
        Conservation(p, evs, l, w);
        SuspendedOwesNothing(p.cfg, l, s.workers[w].conns);
      }
      NothingTotalPending(p.cfg, l, s.workers);
    }
  }

  lemma {:induction false} FlightsOfWorkers(cfg: Settings, workers: seq<Worker>, bound: nat)
    requires forall w :: 0 <= w < |workers| ==> ConnsPending(cfg, Flights, workers[w].conns) <= bound
    ensures TotalPending(cfg, Flights, workers) <= |workers| * bound
  {
    if workers == [] {
    } else {
      var n := |workers| - 1;
      FlightsOfWorkers(cfg, workers[..n], bound);
      assert |workers| * bound == n * bound + bound;
    }
  }

  /** With `connections / threads` connections per worker, never more than
      `connections * streams` requests are in flight. */
  lemma TotalInFlightBounded(p: Plan, evs: seq<Event>, connections: nat)
    requires Run(p, evs).Some? && p.workers > 0 && p.perWorker == connections / p.workers
    ensures TotalPending(p.cfg, Flights, Run(p, evs).value.workers)
         <= p.workers * (p.perWorker * p.streams) <= connections * p.streams
  {
    hide *;
    WorkerCount(p, evs);
    var s, bound := Run(p, evs).value, p.perWorker * p.streams;
    forall w | 0 <= w < |s.workers|
      ensures ConnsPending(p.cfg, Flights, s.workers[w].conns) <= bound
    {
      InFlightBounded(p, evs, w);
    }
    FlightsOfWorkers(p.cfg, s.workers, bound);
    ShareOut(connections, p.workers, p.streams);
  }

  lemma ShareOut(connections: nat, workers: nat, streams: nat)
    requires workers > 0
    ensures workers * ((connections / workers) * streams) <= connections * streams
  {
    var each := connections / workers;
    assert connections == workers * each + connections % workers;
    assert workers * (each * streams) == (workers * each) * streams;
    AtMostTimes(workers * each, connections, streams);
  }

  lemma AtMostTimes(a: nat, b: nat, c: nat)
    requires a <= b
    ensures a * c <= b * c
  {
  }

  /** The latency histogram is sized so that nothing in time is refused; then the
      timeouts of the run are exactly the exchanges slower than the timeout. */
  lemma {:induction false} TracedOverdueIsLate(cfg: Settings, w: nat, evs: seq<Event>)
    requires cfg.limit == cfg.timeoutMs * 1000 + 1
    ensures Traced(cfg, Overdue, w, evs) == LateAnswers(cfg, w, evs)
  {
    if evs == [] {
    } else {
      TracedOverdueIsLate(cfg, w, evs[..|evs| - 1]);
      var ev := evs[|evs| - 1];
      if ev.Task? && ev.step.StreamOp? && ev.step.op.Answer? {
        SizedHistogramRefusesNothing(cfg, ev.step.op.x);
      }
    }
  }

  /** Answers on worker `w` that took longer than the timeout. */
  function LateAnswers(cfg: Settings, w: nat, evs: seq<Event>): nat {
    if evs == [] then 0
    else
      var ev := evs[|evs| - 1];
      LateAnswers(cfg, w, evs[..|evs| - 1]) +
      (if ev.Task? && ev.w == w && ev.step.StreamOp? && ev.step.op.Answer?
          && ev.step.op.x.elapsedNs > cfg.timeoutMs * 1_000_000 then 1 else 0)
  }

  /** Timeout partition: once a worker has ended, its timeouts are its late
      answers, and its accepted samples are all the others. */
  lemma TimeoutPartition(p: Plan, evs: seq<Event>, w: nat)
    requires Run(p, evs).Some? && w < p.workers
    requires w < |Run(p, evs).value.workers|
    requires Run(p, evs).value.workers[w].recorder.Finished?
    requires p.cfg.limit == p.cfg.timeoutMs * 1000 + 1
    ensures var books := Run(p, evs).value.workers[w].books;
      && books.tally.errorsTimeout == LateAnswers(p.cfg, w, evs)
      && |books.recorded| == Traced(p.cfg, Completed, w, evs) - LateAnswers(p.cfg, w, evs)
  {
    SnapshotOfFinishedWorker(p, evs, w, Overdue);
    SnapshotOfFinishedWorker(p, evs, w, Judged);
    TracedOverdueIsLate(p.cfg, w, evs);
    TracedJudged(p.cfg, w, evs);
  }

  /** Answers on worker `w` that were in time and took `us` whole microseconds. */
  function PromptAnswers(cfg: Settings, w: nat, evs: seq<Event>, us: nat): nat {
    if evs == [] then 0
    else
      var ev := evs[|evs| - 1];
      PromptAnswers(cfg, w, evs[..|evs| - 1], us) +
      (if ev.Task? && ev.w == w && ev.step.StreamOp? && ev.step.op.Answer?
          && ev.step.op.x.elapsedNs <= cfg.timeoutMs * 1_000_000 && ev.step.op.x.elapsedNs / 1000 == us then 1 else 0)
  }

  lemma {:induction false} TracedSamples(cfg: Settings, w: nat, evs: seq<Event>, us: nat)
    requires cfg.limit == cfg.timeoutMs * 1000 + 1 <= U64_MAX
    ensures Traced(cfg, Sampled(us), w, evs) == PromptAnswers(cfg, w, evs, us)
  {
    if evs == [] {
    } else {
      TracedSamples(cfg, w, evs[..|evs| - 1], us);
      var ev := evs[|evs| - 1];
      if ev.Task? && ev.step.StreamOp? && ev.step.op.Answer? {
        SizedHistogramRefusesNothing(cfg, ev.step.op.x);
        OverdueIs(cfg, ev.step.op.x);
      }
    }
  }

  /** The accepted samples of an ended worker, value by value: the answers in time, in
      whole microseconds. */
  lemma SamplePartition(p: Plan, evs: seq<Event>, w: nat, us: nat)
    requires Run(p, evs).Some? && w < p.workers
    requires w < |Run(p, evs).value.workers|
    requires Run(p, evs).value.workers[w].recorder.Finished?
    requires p.cfg.limit == p.cfg.timeoutMs * 1000 + 1 <= U64_MAX
    ensures Count(Run(p, evs).value.workers[w].books.recorded, us) == PromptAnswers(p.cfg, w, evs, us)
  {
    SnapshotOfFinishedWorker(p, evs, w, Sampled(us));
    TracedSamples(p.cfg, w, evs, us);
  }

  lemma {:induction false} TracedJudged(cfg: Settings, w: nat, evs: seq<Event>)
    ensures Traced(cfg, Judged, w, evs) == Traced(cfg, Completed, w, evs)
  {
    if evs == [] {
    } else {
      TracedJudged(cfg, w, evs[..|evs| - 1]);
    }
  }
}
