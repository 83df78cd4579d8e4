/** The benchmark as it runs: the accounting machine together with the two shared
histograms, each recorded into by all workers at once, one atomic operation per step.
A worker calls `record` when one of its tasks has a latency and when its recorder has a
rate, and does nothing else before the call has returned. */
module Benchmark {

  import opened Accounting
  import opened Exchanges
  import opened Histograms
  import opened Rates
  import opened Samples
  import opened Words
  import Concurrent = ConcurrentRecord

  // ---- the samples of a run -----------------------------------------------

  /** The latencies of all answers in time, in whole microseconds, read off the trace. */
  function InTime(cfg: Settings, evs: seq<Event>): seq<nat> {
    if evs == [] then []
    else InTime(cfg, evs[..|evs| - 1]) + SampleOf(cfg, evs[|evs| - 1])
  }

  function SampleOf(cfg: Settings, ev: Event): seq<nat> {
    if ev.Task? && ev.step.StreamOp? && ev.step.op.Answer?
       && ev.step.op.x.elapsedNs <= cfg.timeoutMs * 1_000_000 && ev.step.op.x.elapsedNs / 1000 < cfg.limit
    then [ev.step.op.x.elapsedNs / 1000]
    else []
  }

  /** The arguments of the calls of `record` for latencies, in the order of the run. */
  function RecordCalls(p: Plan, evs: seq<Event>): seq<nat>
    requires Run(p, evs).Some?
  {
    if evs == [] then []
    else
      var before, ev := evs[..|evs| - 1], evs[|evs| - 1];
      RecordCalls(p, before) + CallOf(Run(p, before).value, ev)
  }

  function CallOf(s: System, ev: Event): seq<nat>
    requires Enabled(s, ev)
  {
    if ev.Task? && ev.step.StreamOp? && ev.step.op.RecordLatency?
    then [ElapsedUs(s.workers[ev.w].conns[ev.c].streams[ev.step.k].x)]
    else []
  }

  lemma {:induction false} PostedUpdate(l: Ledger, workers: seq<Worker>, w: nat, wk: Worker, b: Books)
    requires w < |workers| && wk.books == workers[w].books.Plus(b)
    ensures Posted(l, TotalBooks(workers[w := wk])) == Posted(l, TotalBooks(workers)) + Posted(l, b)
  {
    hide Posted;
    var n := |workers| - 1;
    PostedPlus(l, TotalBooks(workers[..n]), workers[n].books);
    if w < n {
      PostedUpdate(l, workers[..n], w, wk, b);
      assert workers[w := wk][..n] == workers[..n][w := wk];
      PostedPlus(l, TotalBooks(workers[..n][w := wk]), workers[n].books);
    } else {
      assert workers[w := wk][..n] == workers[..n];
      PostedPlus(l, TotalBooks(workers[..n]), wk.books);
      PostedPlus(l, workers[w].books, b);
    }
  }

  function EventBooks(p: Plan, s: System, ev: Event): Books
    requires Enabled(s, ev) && !ev.SetStop?
  {
    if ev.Task? then ConnPosting(p, s.workers[ev.w].conns[ev.c], ev.step) else BLANK
  }

  lemma EventKeepsBooks(p: Plan, s: System, ev: Event)
    requires Enabled(s, ev) && !ev.SetStop?
    ensures WorkerNext(p, s.workers[ev.w], ev).books == s.workers[ev.w].books.Plus(EventBooks(p, s, ev))
  {
    hide ConnPosting, ConnNext, ConnCan, AllSuspended;
    PlusBlank(s.workers[ev.w].books);
  }

  lemma PostingRecords(cfg: Settings, st: Stream, op: Op)
    requires Can(st, op)
    ensures Posting(cfg, st, op).recorded
         == if op.RecordLatency? && ElapsedUs(st.x) < cfg.limit then [ElapsedUs(st.x)] else []
  {
    hide ElapsedUs;
  }

  lemma EventRecords(p: Plan, s: System, ev: Event)
    requires Enabled(s, ev) && !ev.SetStop?
    ensures EventBooks(p, s, ev).recorded == Accepted(CallOf(s, ev), p.cfg.limit)
  {
    hide Posting, ElapsedUs, Accepted, AllSuspended, AllEnded, Count;
    AcceptedOne(CallOf(s, ev), p.cfg.limit, 0);
    if ev.Task? && ev.step.StreamOp? {
      PostingRecords(p.cfg, s.workers[ev.w].conns[ev.c].streams[ev.step.k], ev.step.op);
    }
  }

  lemma SampledCounts(b: Books, us: nat)
    ensures Posted(Sampled(us), b) == Count(b.recorded, us)
  {
  }

  /** A step posts the sample it calls `record` with, if the histogram accepts it. */
  lemma CallPosted(p: Plan, s: System, ev: Event, us: nat)
    requires Enabled(s, ev)
    ensures Posted(Sampled(us), TotalBooks(Next(p, s, ev).workers))
         == Posted(Sampled(us), TotalBooks(s.workers)) + Count(Accepted(CallOf(s, ev), p.cfg.limit), us)
  {
    hide WorkerNext, WorkerCan, EventBooks, Accepted, Posted, Count;
    AcceptedOne([], p.cfg.limit, us);
    if !ev.SetStop? {
      var wk := s.workers[ev.w];
      var b := EventBooks(p, s, ev);
      EventKeepsBooks(p, s, ev);
      EventRecords(p, s, ev);
      SampledCounts(b, us);
      PostedUpdate(Sampled(us), s.workers, ev.w, WorkerNext(p, wk, ev), b);
    }
  }

  lemma AcceptedOne(call: seq<nat>, limit: nat, us: nat)
    requires |call| <= 1
    ensures Accepted(call, limit) == if call != [] && call[0] < limit then call else []
    ensures Count(call, us) == if call != [] && call[0] == us then 1 else 0
    ensures Count([], us) == 0
  {
    if call != [] {
      assert Front(call) == [];
      assert call == [call[0]];
    }
  }

  lemma {:induction false} AcceptedConcat(a: seq<nat>, b: seq<nat>, limit: nat)
    ensures Accepted(a + b, limit) == Accepted(a, limit) + Accepted(b, limit)
  {
    if b == [] {
      assert a + b == a;
    } else {
      assert Front(a + b) == a + Front(b) && Last(a + b) == Last(b);
      AcceptedConcat(a, Front(b), limit);
      var kept := if Last(b) < limit then [Last(b)] else [];
      assert Accepted(a + b, limit) == Accepted(a + Front(b), limit) + kept;
      assert Accepted(b, limit) == Accepted(Front(b), limit) + kept;
      hide *;
    }
  }

  lemma {:induction false} CallsPosted(p: Plan, evs: seq<Event>, us: nat)
    requires Run(p, evs).Some?
    ensures Posted(Sampled(us), TotalBooks(Run(p, evs).value.workers))
         == Count(Accepted(RecordCalls(p, evs), p.cfg.limit), us)
  {
    if evs == [] {
      NothingPosted(p, p.workers, us);
    } else {
      var before, ev := evs[..|evs| - 1], evs[|evs| - 1];
      var s := Run(p, before).value;
      CallsPosted(p, before, us);
      CallPosted(p, s, ev, us);
      AcceptedConcat(RecordCalls(p, before), CallOf(s, ev), p.cfg.limit);
      CountConcat(Accepted(RecordCalls(p, before), p.cfg.limit), Accepted(CallOf(s, ev), p.cfg.limit), us);
    }
  }

  lemma {:induction false} NothingPosted(p: Plan, n: nat, us: nat)
    ensures Posted(Sampled(us), TotalBooks(seq(n, _ => FreshWorker(p)))) == 0
  {
    if n == 0 {
    } else {
      var workers := seq(n, _ => FreshWorker(p));
      assert workers[..n - 1] == seq(n - 1, _ => FreshWorker(p));
      NothingPosted(p, n - 1, us);
      PostedPlus(Sampled(us), TotalBooks(workers[..n - 1]), BLANK);
    }
  }

  // ---- the trace of all workers -------------------------------------------

  lemma {:induction false} TotalTracedStep(cfg: Settings, l: Ledger, workers: nat, evs: seq<Event>)
    requires evs != []
    ensures var ev := evs[|evs| - 1];
      TotalTraced(cfg, l, workers, evs)
        == TotalTraced(cfg, l, workers, evs[..|evs| - 1])
           + (if ev.Task? && ev.w < workers then StepEntry(cfg, l, ev.step) else 0)
  {
    hide StepEntry;
    if workers == 0 {
    } else {
      TotalTracedStep(cfg, l, workers - 1, evs);
    }
  }

  lemma {:induction false} TotalTracedNothing(cfg: Settings, l: Ledger, workers: nat)
    ensures TotalTraced(cfg, l, workers, []) == 0
  {
    if workers == 0 {
    } else {
      TotalTracedNothing(cfg, l, workers - 1);
    }
  }

  lemma SampleCounted(cfg: Settings, ev: Event, us: nat)
    requires cfg.limit <= U64_MAX
    ensures Count(SampleOf(cfg, ev), us) == if ev.Task? then StepEntry(cfg, Sampled(us), ev.step) else 0
  {
    AcceptedOne(SampleOf(cfg, ev), cfg.limit, us);
    if ev.Task? && ev.step.StreamOp? && ev.step.op.Answer? {
      OverdueIs(cfg, ev.step.op.x);
    }
    hide IsOverdue, Count, ElapsedUs;
  }

  lemma {:induction false} InTimeTraced(p: Plan, evs: seq<Event>, us: nat)
    requires Run(p, evs).Some? && p.cfg.limit <= U64_MAX
    ensures TotalTraced(p.cfg, Sampled(us), p.workers, evs) == Count(InTime(p.cfg, evs), us)
  {
    if evs == [] {
      TotalTracedNothing(p.cfg, Sampled(us), p.workers);
    } else {
      var before, ev := evs[..|evs| - 1], evs[|evs| - 1];
      InTimeTraced(p, before, us);
      WorkerCount(p, before);
      TotalTracedStep(p.cfg, Sampled(us), p.workers, evs);
      hide StepEntry, SampleOf, TotalTraced, Count;
      SampleCounted(p.cfg, ev, us);
      CountConcat(InTime(p.cfg, before), SampleOf(p.cfg, ev), us);
    }
  }

  lemma {:induction false} JudgedTraced(p: Plan, evs: seq<Event>)
    requires Run(p, evs).Some? && p.cfg.limit <= U64_MAX
    ensures TotalTraced(p.cfg, Completed, p.workers, evs)
         == TotalTraced(p.cfg, Overdue, p.workers, evs) + |InTime(p.cfg, evs)|
  {
    hide TotalTraced, Next;
    if evs == [] {
      TotalTracedNothing(p.cfg, Completed, p.workers);
      TotalTracedNothing(p.cfg, Overdue, p.workers);
    } else {
      JudgedTraced(p, evs[..|evs| - 1]);
      WorkerCount(p, evs[..|evs| - 1]);
      TotalTracedStep(p.cfg, Completed, p.workers, evs);
      TotalTracedStep(p.cfg, Overdue, p.workers, evs);
      var ev := evs[|evs| - 1];
      if ev.Task? && ev.step.StreamOp? && ev.step.op.Answer? {
        OverdueIs(p.cfg, ev.step.op.x);
      }
      hide IsOverdue, ElapsedUs;
    }
  }

  // ---- the calls for rates ------------------------------------------------

  /** The arguments of the calls of `record` for rates, in the order of the run. */
  function RateCalls(p: Plan, evs: seq<Event>): seq<nat>
    requires Run(p, evs).Some?
  {
    if evs == [] then []
    else
      var before, ev := evs[..|evs| - 1], evs[|evs| - 1];
      RateCalls(p, before) + RateCallOf(Run(p, before).value, ev)
  }

  function RateCallOf(s: System, ev: Event): seq<nat>
    requires Enabled(s, ev)
  {
    if ev.Swap? then RateList(s.workers[ev.w].rate, ev.elapsedMs) else []
  }

  /** The rates of the first `n` workers, worker by worker, read off the trace alone. */
  function AllRates(n: nat, evs: seq<Event>): seq<nat> {
    if n == 0 then [] else AllRates(n - 1, evs) + RatesOf(TicksOf(n - 1, evs))
  }

  /** The intervals of all recorders in which requests were started. */
  function AllBusy(n: nat, evs: seq<Event>): seq<Tick> {
    if n == 0 then [] else AllBusy(n - 1, evs) + Busy(TicksOf(n - 1, evs))
  }

  lemma {:induction false} AllRatesAreQuotients(n: nat, evs: seq<Event>)
    ensures |AllRates(n, evs)| == |AllBusy(n, evs)|
    ensures forall i :: 0 <= i < |AllBusy(n, evs)| ==>
      AllRates(n, evs)[i] == Min(AllBusy(n, evs)[i].reqs * 1000 / Max(AllBusy(n, evs)[i].elapsedMs, 1), U64_MAX)
  {
    hide TicksOf, RatesOf, Busy;
    if n == 0 {
    } else {
      AllRatesAreQuotients(n - 1, evs);
      RatesAreQuotients(TicksOf(n - 1, evs));
    }
  }

  function RatesHeld(workers: seq<Worker>): seq<nat> {
    if workers == [] then [] else RatesHeld(workers[..|workers| - 1]) + workers[|workers| - 1].rates
  }

  lemma {:induction false} RatesUpdate(workers: seq<Worker>, w: nat, wk: Worker, added: seq<nat>, v: nat)
    requires w < |workers| && wk.rates == workers[w].rates + added
    ensures Count(RatesHeld(workers[w := wk]), v) == Count(RatesHeld(workers), v) + Count(added, v)
  {
    hide Count;
    var n := |workers| - 1;
    CountConcat(RatesHeld(workers[..n]), workers[n].rates, v);
    if w < n {
      RatesUpdate(workers[..n], w, wk, added, v);
      assert workers[w := wk][..n] == workers[..n][w := wk];
      CountConcat(RatesHeld(workers[..n][w := wk]), workers[n].rates, v);
    } else {
      assert workers[w := wk][..n] == workers[..n];
      CountConcat(RatesHeld(workers[..n]), wk.rates, v);
      CountConcat(workers[w].rates, added, v);
    }
  }

  lemma RateStep(p: Plan, s: System, ev: Event, v: nat)
    requires Enabled(s, ev)
    ensures Count(RatesHeld(Next(p, s, ev).workers), v)
         == Count(RatesHeld(s.workers), v) + Count(RateCallOf(s, ev), v)
  {
    hide WorkerCan, Count, RateList, RatesHeld;
    AcceptedOne([], 0, v);
    if !ev.SetStop? {
      var wk := s.workers[ev.w];
      assert WorkerNext(p, wk, ev).rates == wk.rates + RateCallOf(s, ev) by {
        assert wk.rates + [] == wk.rates;
      }
      hide WorkerNext, RateCallOf;
      RatesUpdate(s.workers, ev.w, WorkerNext(p, wk, ev), RateCallOf(s, ev), v);
    }
  }

  lemma {:induction false} RatesCalled(p: Plan, evs: seq<Event>, v: nat)
    requires Run(p, evs).Some?
    ensures Count(RatesHeld(Run(p, evs).value.workers), v) == Count(RateCalls(p, evs), v)
  {
    if evs == [] {
      NoRates(p, p.workers);
    } else {
      var before, ev := evs[..|evs| - 1], evs[|evs| - 1];
      RatesCalled(p, before, v);
      RateStep(p, Run(p, before).value, ev, v);
      CountConcat(RateCalls(p, before), RateCallOf(Run(p, before).value, ev), v);
    }
  }

  lemma {:induction false} NoRates(p: Plan, n: nat)
    ensures RatesHeld(seq(n, _ => FreshWorker(p))) == []
  {
    if n == 0 {
    } else {
      var workers := seq(n, _ => FreshWorker(p));
      assert workers[..n - 1] == seq(n - 1, _ => FreshWorker(p));
      NoRates(p, n - 1);
    }
  }

  lemma RatesOfWorker(p: Plan, evs: seq<Event>, w: nat)
    requires Run(p, evs).Some? && w < p.workers
    ensures w < |Run(p, evs).value.workers|
    ensures Run(p, evs).value.workers[w].rates == RatesOf(TicksOf(w, evs))
  {
    hide Run, RatesOf, TicksOf, SinceSwap, SwappedOf, Stopped;
    RecorderRuns(p, evs, w);
  }

  lemma {:induction false} RatesTraced(p: Plan, evs: seq<Event>, n: nat)
    requires Run(p, evs).Some? && n <= p.workers
    ensures n <= |Run(p, evs).value.workers|
    ensures RatesHeld(Run(p, evs).value.workers[..n]) == AllRates(n, evs)
  {
    hide Run, RatesOf, TicksOf;
    WorkerCount(p, evs);
    var workers := Run(p, evs).value.workers;
    if n == 0 {
      assert workers[..0] == [];
    } else {
      HeldSnoc(workers, n);
      assert AllRates(n, evs) == AllRates(n - 1, evs) + RatesOf(TicksOf(n - 1, evs));
      hide *;
      RatesTraced(p, evs, n - 1);
      RatesOfWorker(p, evs, n - 1);
    }
  }

  lemma HeldSnoc(workers: seq<Worker>, n: nat)
    requires 0 < n <= |workers|
    ensures RatesHeld(workers[..n]) == RatesHeld(workers[..n - 1]) + workers[n - 1].rates
  {
    assert workers[..n][..n - 1] == workers[..n - 1];
  }

  /** The calls for rates are those of all recorders, each in the order of its worker. */
  lemma RateCallsTraced(p: Plan, evs: seq<Event>)
    requires Run(p, evs).Some?
    ensures SameSamples(RateCalls(p, evs), AllRates(p.workers, evs))
  {
    var workers := Run(p, evs).value.workers;
    WorkerCount(p, evs);
    RatesTraced(p, evs, p.workers);
    assert workers[..p.workers] == workers;
    forall v: nat
      ensures Count(RateCalls(p, evs), v) == Count(AllRates(p.workers, evs), v)
    {
      RatesCalled(p, evs, v);
    }
    SameCounts(RateCalls(p, evs), AllRates(p.workers, evs));
  }

  // ---- the product --------------------------------------------------------

  /** Buckets of the histogram of rates: `MAX_THREAD_RATE_S` is the largest rate. */
  const RATE_LIMIT: nat := 10_000_001

  datatype State = State(system: System, latency: Concurrent.State, requests: Concurrent.State)

  /** A step of the accounting machine, or of a call of `record` on one histogram. */
  datatype Step =
    | Work(ev: Event)
    | LatencyAtom(atom: Concurrent.Event)
    | RateAtom(atom: Concurrent.Event)

  function Begin(p: Plan): State {
    State(Init(p), Concurrent.Start(p.cfg.limit, p.workers), Concurrent.Start(RATE_LIMIT, p.workers))
  }

  /** Worker `w` is inside no call on this histogram. */
  predicate Free(c: Concurrent.State, w: nat) {
    w < |c.threads| && c.threads[w].pc.Idle?
  }

  predicate StepCan(b: State, step: Step) {
    match step
    case Work(ev) =>
      Enabled(b.system, ev) && (ev.SetStop? || (Free(b.latency, ev.w) && Free(b.requests, ev.w)))
    case LatencyAtom(atom) => Concurrent.Enabled(b.latency, atom) && !atom.op.Call?
    case RateAtom(atom) => Concurrent.Enabled(b.requests, atom) && !atom.op.Call?
  }

  /** Entering `record`, if there is a sample to record. */
  function Entered(c: Concurrent.State, w: nat, call: seq<nat>): Concurrent.State
    requires call == [] || Free(c, w)
  {
    if call == [] then c else Concurrent.Next(c, Concurrent.Event(w, Concurrent.Call(call[0])))
  }

  /** The worker an event belongs to; the main thread sets the flag. */
  function WorkerOf(ev: Event): nat {
    if ev.SetStop? then 0 else ev.w
  }

  function StepNext(p: Plan, b: State, step: Step): State
    requires StepCan(b, step)
  {
    match step
    case Work(ev) =>
      State(Next(p, b.system, ev),
            Entered(b.latency, WorkerOf(ev), CallOf(b.system, ev)),
            Entered(b.requests, WorkerOf(ev), RateCallOf(b.system, ev)))
    case LatencyAtom(atom) => b.(latency := Concurrent.Next(b.latency, atom))
    case RateAtom(atom) => b.(requests := Concurrent.Next(b.requests, atom))
  }

  function Go(p: Plan, steps: seq<Step>): Option<State> {
    if steps == [] then Some(Begin(p))
    else
      match Go(p, steps[..|steps| - 1])
      case None => None
      case Some(b) => if StepCan(b, steps[|steps| - 1]) then Some(StepNext(p, b, steps[|steps| - 1])) else None
  }

  // ---- its projections ----------------------------------------------------

  function WorkOf(steps: seq<Step>): seq<Event> {
    if steps == [] then []
    else
      var step := steps[|steps| - 1];
      WorkOf(steps[..|steps| - 1]) + (if step.Work? then [step.ev] else [])
  }

  function CallEvents(w: nat, call: seq<nat>): seq<Concurrent.Event> {
    if call == [] then [] else [Concurrent.Event(w, Concurrent.Call(call[0]))]
  }

  /** What happens to the histogram of latencies. */
  function LatencyOf(p: Plan, steps: seq<Step>): seq<Concurrent.Event>
    requires Go(p, steps).Some?
  {
    if steps == [] then []
    else
      var before, step := steps[..|steps| - 1], steps[|steps| - 1];
      LatencyOf(p, before) +
      match step
      case Work(ev) => CallEvents(WorkerOf(ev), CallOf(Go(p, before).value.system, ev))
      case LatencyAtom(atom) => [atom]
      case RateAtom(_) => []
  }

  /** What happens to the histogram of rates. */
  function RequestsOf(p: Plan, steps: seq<Step>): seq<Concurrent.Event>
    requires Go(p, steps).Some?
  {
    if steps == [] then []
    else
      var before, step := steps[..|steps| - 1], steps[|steps| - 1];
      RequestsOf(p, before) +
      match step
      case Work(ev) => CallEvents(WorkerOf(ev), RateCallOf(Go(p, before).value.system, ev))
      case LatencyAtom(_) => []
      case RateAtom(atom) => [atom]
  }

  /** One part of the product follows one recording machine. */
  ghost predicate Follows(limit: nat, threads: nat, c: Concurrent.State, rec: seq<Concurrent.Event>, calls: seq<nat>) {
    Concurrent.Run(Concurrent.Start(limit, threads), rec) == Some(c) && Concurrent.Calls(rec) == calls
  }

  lemma FollowsAtom(limit: nat, threads: nat, c: Concurrent.State, rec: seq<Concurrent.Event>, calls: seq<nat>,
                    atom: Concurrent.Event)
    requires Follows(limit, threads, c, rec, calls) && Concurrent.Enabled(c, atom) && !atom.op.Call?
    ensures Follows(limit, threads, Concurrent.Next(c, atom), rec + [atom], calls)
  {
    assert (rec + [atom])[..|rec|] == rec;
    assert calls + [] == calls;
  }

  lemma FollowsCall(limit: nat, threads: nat, c: Concurrent.State, rec: seq<Concurrent.Event>, calls: seq<nat>,
                    w: nat, call: seq<nat>)
    requires Follows(limit, threads, c, rec, calls) && |call| <= 1 && (call == [] || Free(c, w))
    ensures Follows(limit, threads, Entered(c, w, call), rec + CallEvents(w, call), calls + call)
  {
    if call == [] {
      assert rec + [] == rec && calls + [] == calls;
    } else {
      var ev := Concurrent.Event(w, Concurrent.Call(call[0]));
      assert (rec + [ev])[..|rec|] == rec;
      assert call == [call[0]];
    }
  }

  lemma FollowsOn(limit: nat, threads: nat, c: Concurrent.State, rec: seq<Concurrent.Event>, calls: seq<nat>)
    requires Follows(limit, threads, c, rec, calls)
    ensures Follows(limit, threads, c, rec + [], calls)
  {
    assert rec + [] == rec;
  }

  lemma {:induction false} SystemRuns(p: Plan, steps: seq<Step>)
    requires Go(p, steps).Some?
    ensures Run(p, WorkOf(steps)) == Some(Go(p, steps).value.system)
  {
    if steps == [] {
    } else {
      var before, step := steps[..|steps| - 1], steps[|steps| - 1];
      SystemRuns(p, before);
      var work := WorkOf(before);
      if step.Work? {
        assert (work + [step.ev])[..|work|] == work;
      } else {
        assert work + [] == work;
      }
      hide Next, Enabled, Entered, CallOf, RateCallOf;
    }
  }

  /** The calls of one more event. */
  lemma MoreCalls(p: Plan, work: seq<Event>, ev: Event)
    requires Run(p, work).Some? && Enabled(Run(p, work).value, ev)
    ensures Run(p, work + [ev]).Some?
    ensures RecordCalls(p, work + [ev]) == RecordCalls(p, work) + CallOf(Run(p, work).value, ev)
    ensures RateCalls(p, work + [ev]) == RateCalls(p, work) + RateCallOf(Run(p, work).value, ev)
  {
    assert (work + [ev])[..|work|] == work;
    hide Enabled, Next, CallOf, RateCallOf;
  }

  lemma {:induction false} LatencyRuns(p: Plan, steps: seq<Step>)
    requires Go(p, steps).Some?
    ensures Run(p, WorkOf(steps)).Some?
    ensures Follows(p.cfg.limit, p.workers, Go(p, steps).value.latency, LatencyOf(p, steps),
                    RecordCalls(p, WorkOf(steps)))
  {
    SystemRuns(p, steps);
    if steps == [] {
    } else {
      var before, step := steps[..|steps| - 1], steps[|steps| - 1];
      LatencyRuns(p, before);
      SystemRuns(p, before);
      var b, rec, work := Go(p, before).value, LatencyOf(p, before), WorkOf(before);
      hide Follows, Entered, CallEvents, Free, CallOf, RateCallOf, Run, RecordCalls, RateCalls, Enabled;
      match step
      case Work(ev) =>
        CallsAreShort(b, ev);
        MoreCalls(p, work, ev);
        FollowsCall(p.cfg.limit, p.workers, b.latency, rec, RecordCalls(p, work), WorkerOf(ev), CallOf(b.system, ev));
      case LatencyAtom(atom) =>
        assert work + [] == work;
        FollowsAtom(p.cfg.limit, p.workers, b.latency, rec, RecordCalls(p, work), atom);
      case RateAtom(atom) =>
        assert work + [] == work;
        FollowsOn(p.cfg.limit, p.workers, b.latency, rec, RecordCalls(p, work));
    }
  }

  lemma {:induction false} RatesRun(p: Plan, steps: seq<Step>)
    requires Go(p, steps).Some?
    ensures Run(p, WorkOf(steps)).Some?
    ensures Follows(RATE_LIMIT, p.workers, Go(p, steps).value.requests, RequestsOf(p, steps),
                    RateCalls(p, WorkOf(steps)))
  {
    SystemRuns(p, steps);
    if steps == [] {
    } else {
      var before, step := steps[..|steps| - 1], steps[|steps| - 1];
      RatesRun(p, before);
      SystemRuns(p, before);
      var b, rec, work := Go(p, before).value, RequestsOf(p, before), WorkOf(before);
      hide Follows, Entered, CallEvents, Free, CallOf, RateCallOf, Run, RecordCalls, RateCalls, Enabled;
      match step
      case Work(ev) =>
        CallsAreShort(b, ev);
        MoreCalls(p, work, ev);
        FollowsCall(RATE_LIMIT, p.workers, b.requests, rec, RateCalls(p, work), WorkerOf(ev), RateCallOf(b.system, ev));
      case LatencyAtom(atom) =>
        assert work + [] == work;
        FollowsOn(RATE_LIMIT, p.workers, b.requests, rec, RateCalls(p, work));
      case RateAtom(atom) =>
        assert work + [] == work;
        FollowsAtom(RATE_LIMIT, p.workers, b.requests, rec, RateCalls(p, work), atom);
    }
  }

  /** A run of the product is a run of each of its parts, and the calls on either
      histogram are those the accounting machine makes, in their order. */
  lemma Projects(p: Plan, steps: seq<Step>)
    requires Go(p, steps).Some?
    ensures Run(p, WorkOf(steps)) == Some(Go(p, steps).value.system)
    ensures Follows(p.cfg.limit, p.workers, Go(p, steps).value.latency, LatencyOf(p, steps),
                    RecordCalls(p, WorkOf(steps)))
    ensures Follows(RATE_LIMIT, p.workers, Go(p, steps).value.requests, RequestsOf(p, steps),
                    RateCalls(p, WorkOf(steps)))
  {
    hide *;
    SystemRuns(p, steps);
    LatencyRuns(p, steps);
    RatesRun(p, steps);
  }

  lemma CallsAreShort(b: State, ev: Event)
    requires StepCan(b, Work(ev))
    ensures |CallOf(b.system, ev)| <= 1 && |RateCallOf(b.system, ev)| <= 1
    ensures CallOf(b.system, ev) == [] || Free(b.latency, WorkerOf(ev))
    ensures RateCallOf(b.system, ev) == [] || Free(b.requests, WorkerOf(ev))
  {
  }

  // ---- the end of a run ---------------------------------------------------

  /** An ended worker is inside no call. */
  ghost predicate EndedAreFree(b: State) {
    && |b.system.workers| == |b.latency.threads| == |b.requests.threads|
    && forall w :: 0 <= w < |b.system.workers| && b.system.workers[w].recorder.Finished? ==>
         b.latency.threads[w].pc.Idle? && b.requests.threads[w].pc.Idle?
  }

  lemma {:induction false} RunKeepsEndedFree(p: Plan, steps: seq<Step>)
    requires Go(p, steps).Some?
    ensures EndedAreFree(Go(p, steps).value)
  {
    if steps == [] {
    } else {
      var before, step := steps[..|steps| - 1], steps[|steps| - 1];
      RunKeepsEndedFree(p, before);
      StepKeepsEndedFree(p, Go(p, before).value, step);
    }
  }

  lemma StepKeepsEndedFree(p: Plan, b: State, step: Step)
    requires EndedAreFree(b) && StepCan(b, step)
    ensures EndedAreFree(StepNext(p, b, step))
  {
    match step
    case Work(ev) =>
      CallsAreShort(b, ev);
      EndsOutsideCalls(p, b, ev);
      EnteredThreads(b.latency, WorkerOf(ev), CallOf(b.system, ev));
      EnteredThreads(b.requests, WorkerOf(ev), RateCallOf(b.system, ev));
      hide CallOf, RateCallOf, Entered, WorkerNext, Enabled, Free;
    case LatencyAtom(atom) => AtomThreads(b.latency, atom);
    case RateAtom(atom) => AtomThreads(b.requests, atom);
  }

  /** A worker that has just ended made no call with that step. */
  lemma EndsOutsideCalls(p: Plan, b: State, ev: Event)
    requires StepCan(b, Work(ev))
    ensures ev.SetStop? ==> CallOf(b.system, ev) == [] && RateCallOf(b.system, ev) == []
    ensures !ev.SetStop? && WorkerNext(p, b.system.workers[ev.w], ev).recorder.Finished? ==>
      && CallOf(b.system, ev) == [] && RateCallOf(b.system, ev) == []
      && Free(b.latency, ev.w) && Free(b.requests, ev.w)
  {
    hide ConnCan, AllSuspended;
  }

  lemma EnteredThreads(c: Concurrent.State, w: nat, call: seq<nat>)
    requires call == [] || Free(c, w)
    ensures |Entered(c, w, call).threads| == |c.threads|
    ensures forall k :: 0 <= k < |c.threads| && (k != w || call == []) ==>
      Entered(c, w, call).threads[k] == c.threads[k]
  {
  }

  /** A thread outside a call can only be moved by entering one. */
  lemma AtomThreads(c: Concurrent.State, atom: Concurrent.Event)
    requires Concurrent.Enabled(c, atom) && !atom.op.Call?
    ensures |Concurrent.Next(c, atom).threads| == |c.threads|
    ensures forall k :: 0 <= k < |c.threads| && c.threads[k].pc.Idle? ==>
      Concurrent.Next(c, atom).threads[k] == c.threads[k]
  {
    hide Concurrent.ThreadNext;
  }

  // ---- no run of the accounting machine is lost ---------------------------

  ghost predicate AllFree(c: Concurrent.State) {
    forall w :: 0 <= w < |c.threads| ==> c.threads[w].pc.Idle?
  }

  function OnLatency(atoms: seq<Concurrent.Event>): seq<Step> {
    if atoms == [] then [] else OnLatency(atoms[..|atoms| - 1]) + [LatencyAtom(atoms[|atoms| - 1])]
  }

  function OnRates(atoms: seq<Concurrent.Event>): seq<Step> {
    if atoms == [] then [] else OnRates(atoms[..|atoms| - 1]) + [RateAtom(atoms[|atoms| - 1])]
  }

  ghost predicate NoCalls(atoms: seq<Concurrent.Event>) {
    forall k :: 0 <= k < |atoms| ==> !atoms[k].op.Call?
  }

  lemma OneStep(p: Plan, steps: seq<Step>, step: Step)
    requires Go(p, steps).Some? && StepCan(Go(p, steps).value, step)
    ensures Go(p, steps + [step]) == Some(StepNext(p, Go(p, steps).value, step))
    ensures WorkOf(steps + [step]) == WorkOf(steps) + (if step.Work? then [step.ev] else [])
  {
    assert (steps + [step])[..|steps|] == steps;
  }

  /** The last step of a recording machine. */
  lemma LastAtom(c: Concurrent.State, atoms: seq<Concurrent.Event>)
    requires atoms != [] && Concurrent.Run(c, atoms).Some? && NoCalls(atoms)
    ensures var n := |atoms| - 1;
      && Concurrent.Run(c, atoms[..n]).Some? && NoCalls(atoms[..n]) && !atoms[n].op.Call?
      && Concurrent.Enabled(Concurrent.Run(c, atoms[..n]).value, atoms[n])
      && Concurrent.Run(c, atoms) == Some(Concurrent.Next(Concurrent.Run(c, atoms[..n]).value, atoms[n]))
  {
  }

  lemma AtomSteps(p: Plan, b: State, atom: Concurrent.Event)
    requires !atom.op.Call?
    ensures Concurrent.Enabled(b.latency, atom) ==>
      && StepCan(b, LatencyAtom(atom))
      && StepNext(p, b, LatencyAtom(atom)) == b.(latency := Concurrent.Next(b.latency, atom))
    ensures Concurrent.Enabled(b.requests, atom) ==>
      && StepCan(b, RateAtom(atom))
      && StepNext(p, b, RateAtom(atom)) == b.(requests := Concurrent.Next(b.requests, atom))
  {
    hide Concurrent.Enabled, Concurrent.Next;
  }

  lemma {:induction false} LatencyAtoms(p: Plan, steps: seq<Step>, atoms: seq<Concurrent.Event>)
    requires Go(p, steps).Some? && NoCalls(atoms)
    requires Concurrent.Run(Go(p, steps).value.latency, atoms).Some?
    ensures Go(p, steps + OnLatency(atoms))
         == Some(Go(p, steps).value.(latency := Concurrent.Run(Go(p, steps).value.latency, atoms).value))
    ensures WorkOf(steps + OnLatency(atoms)) == WorkOf(steps)
  {
    if atoms == [] {
      assert steps + [] == steps;
    } else {
      var n := |atoms| - 1;
      assert steps + OnLatency(atoms) == (steps + OnLatency(atoms[..n])) + [LatencyAtom(atoms[n])];
      hide *;
      LastAtom(Go(p, steps).value.latency, atoms);
      LatencyAtoms(p, steps, atoms[..n]);
      AtomSteps(p, Go(p, steps + OnLatency(atoms[..n])).value, atoms[n]);
      OneStep(p, steps + OnLatency(atoms[..n]), LatencyAtom(atoms[n]));
      assert WorkOf(steps) + [] == WorkOf(steps);
    }
  }

  lemma {:induction false} RateAtoms(p: Plan, steps: seq<Step>, atoms: seq<Concurrent.Event>)
    requires Go(p, steps).Some? && NoCalls(atoms)
    requires Concurrent.Run(Go(p, steps).value.requests, atoms).Some?
    ensures Go(p, steps + OnRates(atoms))
         == Some(Go(p, steps).value.(requests := Concurrent.Run(Go(p, steps).value.requests, atoms).value))
    ensures WorkOf(steps + OnRates(atoms)) == WorkOf(steps)
  {
    if atoms == [] {
      assert steps + [] == steps;
    } else {
      var n := |atoms| - 1;
      assert steps + OnRates(atoms) == (steps + OnRates(atoms[..n])) + [RateAtom(atoms[n])];
      hide *;
      LastAtom(Go(p, steps).value.requests, atoms);
      RateAtoms(p, steps, atoms[..n]);
      AtomSteps(p, Go(p, steps + OnRates(atoms[..n])).value, atoms[n]);
      OneStep(p, steps + OnRates(atoms[..n]), RateAtom(atoms[n]));
      assert WorkOf(steps) + [] == WorkOf(steps);
    }
  }

  /** In every reachable state both recording machines keep their invariant. */
  lemma PartsOk(p: Plan, steps: seq<Step>)
    requires Go(p, steps).Some? && 0 < p.cfg.limit <= MAX_BUCKETS
    ensures var b := Go(p, steps).value;
      && Concurrent.Inv(b.latency) && |b.latency.threads| == p.workers
      && Concurrent.Inv(b.requests) && |b.requests.threads| == p.workers
      && |b.system.workers| == p.workers
  {
    Projects(p, steps);
    Concurrent.RunKeepsInv(p.cfg.limit, p.workers, LatencyOf(p, steps));
    Concurrent.RunKeepsInv(RATE_LIMIT, p.workers, RequestsOf(p, steps));
    WorkerCount(p, WorkOf(steps));
  }

  ghost predicate OthersFree(c: Concurrent.State, w: nat) {
    forall k :: 0 <= k < |c.threads| && k != w ==> c.threads[k].pc.Idle?
  }

  lemma LatencyReturns(p: Plan, steps: seq<Step>, b: State, w: nat) returns (longer: seq<Step>, c: Concurrent.State)
    requires Go(p, steps) == Some(b)
    requires Concurrent.Inv(b.latency) && w < |b.latency.threads| && OthersFree(b.latency, w)
    ensures Go(p, longer) == Some(b.(latency := c)) && WorkOf(longer) == WorkOf(steps) && AllFree(c)
  {
    hide Go, WorkOf, Concurrent.Inv, Concurrent.Run;
    var atoms := Concurrent.Finishes(b.latency, w);
    longer, c := steps + OnLatency(atoms), Concurrent.Run(b.latency, atoms).value;
    LatencyAtoms(p, steps, atoms);
  }

  lemma RateReturns(p: Plan, steps: seq<Step>, b: State, w: nat) returns (longer: seq<Step>, c: Concurrent.State)
    requires Go(p, steps) == Some(b)
    requires Concurrent.Inv(b.requests) && w < |b.requests.threads| && OthersFree(b.requests, w)
    ensures Go(p, longer) == Some(b.(requests := c)) && WorkOf(longer) == WorkOf(steps) && AllFree(c)
  {
    hide Go, WorkOf, Concurrent.Inv, Concurrent.Run;
    var atoms := Concurrent.Finishes(b.requests, w);
    longer, c := steps + OnRates(atoms), Concurrent.Run(b.requests, atoms).value;
    RateAtoms(p, steps, atoms);
  }

  /** Whatever worker `w` has called, it can return from both calls by itself. */
  lemma CallsReturn(p: Plan, steps: seq<Step>, w: nat) returns (longer: seq<Step>)
    requires Go(p, steps).Some? && 0 < p.cfg.limit <= MAX_BUCKETS && w < p.workers
    requires OthersFree(Go(p, steps).value.latency, w) && OthersFree(Go(p, steps).value.requests, w)
    ensures Go(p, longer).Some? && WorkOf(longer) == WorkOf(steps)
    ensures AllFree(Go(p, longer).value.latency) && AllFree(Go(p, longer).value.requests)
  {
    PartsOk(p, steps);
    hide *;
    var b := Go(p, steps).value;
    var middle, c := LatencyReturns(p, steps, b, w);
    var d: Concurrent.State;
    longer, d := RateReturns(p, middle, b.(latency := c), w);
  }

  /** A step of the accounting machine, and then the calls it made. */
  lemma EventHappens(p: Plan, steps: seq<Step>, ev: Event) returns (longer: seq<Step>)
    requires Go(p, steps).Some? && 0 < p.cfg.limit <= MAX_BUCKETS && Enabled(Go(p, steps).value.system, ev)
    requires AllFree(Go(p, steps).value.latency) && AllFree(Go(p, steps).value.requests)
    ensures Go(p, longer).Some? && WorkOf(longer) == WorkOf(steps) + [ev]
    ensures AllFree(Go(p, longer).value.latency) && AllFree(Go(p, longer).value.requests)
  {
    PartsOk(p, steps);
    var b := Go(p, steps).value;
    hide Go, WorkOf, Concurrent.Inv;
    longer := steps + [Work(ev)];
    if ev.SetStop? {
      QuietEvent(p, b, ev);
      hide StepNext, StepCan;
      OneStep(p, steps, Work(ev));
    } else {
      WorkEvent(p, b, ev);
      hide StepNext, StepCan, Enabled;
      OneStep(p, steps, Work(ev));
      longer := CallsReturn(p, longer, ev.w);
    }
  }

  lemma WorkEvent(p: Plan, b: State, ev: Event)
    requires Enabled(b.system, ev) && !ev.SetStop? && AllFree(b.latency) && AllFree(b.requests)
    requires |b.system.workers| == |b.latency.threads| == |b.requests.threads|
    ensures ev.w < |b.system.workers| && StepCan(b, Work(ev))
    ensures OthersFree(StepNext(p, b, Work(ev)).latency, ev.w)
    ensures OthersFree(StepNext(p, b, Work(ev)).requests, ev.w)
  {
    hide WorkerCan, MayRead, Next;
    CallsAreShort(b, ev);
    EnteredThreads(b.latency, ev.w, CallOf(b.system, ev));
    EnteredThreads(b.requests, ev.w, RateCallOf(b.system, ev));
    hide Entered, CallOf, RateCallOf;
  }

  /** Every run of the accounting machine is part of a run of the product in which all
      calls have returned. */
  lemma {:induction false} EveryRunHappens(p: Plan, evs: seq<Event>) returns (steps: seq<Step>)
    requires Run(p, evs).Some? && 0 < p.cfg.limit <= MAX_BUCKETS
    ensures Go(p, steps).Some? && WorkOf(steps) == evs
    ensures AllFree(Go(p, steps).value.latency) && AllFree(Go(p, steps).value.requests)
  {
    if evs == [] {
      steps := [];
    } else {
      var ev := evs[|evs| - 1];
      assert Enabled(Run(p, evs[..|evs| - 1]).value, ev);
      hide *;
      var before := EveryRunHappens(p, evs[..|evs| - 1]);
      SystemRuns(p, before);
      steps := EventHappens(p, before, ev);
      assert evs == evs[..|evs| - 1] + [ev];
    }
  }

  lemma QuietEvent(p: Plan, b: State, ev: Event)
    requires Enabled(b.system, ev) && ev.SetStop?
    ensures StepCan(b, Work(ev))
    ensures StepNext(p, b, Work(ev)).latency == b.latency && StepNext(p, b, Work(ev)).requests == b.requests
  {
  }

  // ---- the laws -----------------------------------------------------------

  /** The end-to-end law for latencies. When all workers have ended, however their tasks
      and the atomic steps of their calls of `record` were interleaved, the shared
      histogram holds exactly the latencies of the answers in time; together with the
      timeouts these are all finished exchanges, and `complete` lacks only dropped locals. */
  lemma LatencyOfRun(p: Plan, steps: seq<Step>)
    requires Go(p, steps).Some? && AllFinished(Go(p, steps).value.system) && 0 < p.cfg.limit <= MAX_BUCKETS
    ensures var b, evs := Go(p, steps).value, WorkOf(steps);
      var tally, samples := TotalBooks(b.system.workers).tally, InTime(p.cfg, evs);
      && b.latency.mins != [] && b.latency.maxs != []
      && Represents(Concurrent.Snapshot(b.latency), samples)
      && |Concurrent.Snapshot(b.latency).data| == p.cfg.limit
      && |samples| + tally.errorsTimeout
         == TotalTraced(p.cfg, Completed, p.workers, evs)
         == tally.complete + TotalPending(p.cfg, Completed, b.system.workers)
  {
    var b, evs, limit := Go(p, steps).value, WorkOf(steps), p.cfg.limit;
    Projects(p, steps);
    RunKeepsEndedFree(p, steps);
    FinalReport(p, evs, Overdue);
    JudgedTraced(p, evs);
    QuiescentHolds(limit, p.workers, b.latency, LatencyOf(p, steps), RecordCalls(p, evs));
    var accepted, samples := Accepted(RecordCalls(p, evs), limit), InTime(p.cfg, evs);
    forall us: nat
      ensures Count(accepted, us) == Count(samples, us)
    {
      FinalReport(p, evs, Sampled(us));
      CallsPosted(p, evs, us);
      InTimeTraced(p, evs, us);
    }
    hide *;
    SameCounts(accepted, samples);
    RepresentsReordered(Concurrent.Snapshot(b.latency), accepted, samples);
  }

  lemma QuiescentHolds(limit: nat, threads: nat, c: Concurrent.State, rec: seq<Concurrent.Event>, calls: seq<nat>)
    requires 0 < limit <= MAX_BUCKETS && Follows(limit, threads, c, rec, calls)
    requires AllFree(c)
    ensures c.mins != [] && c.maxs != [] && |c.data| == limit
    ensures Represents(Concurrent.Snapshot(c), Accepted(calls, limit))
  {
    Concurrent.QuiescentIsSequential(limit, threads, rec);
    Concurrent.RunKeepsInv(limit, threads, rec);
  }

  /** The end-to-end law for rates: the other histogram holds exactly one rate for each
      interval of each recorder in which requests were started, up to the largest rate. */
  lemma RatesOfWholeRun(p: Plan, steps: seq<Step>)
    requires Go(p, steps).Some? && AllFinished(Go(p, steps).value.system)
    ensures var b := Go(p, steps).value;
      && b.requests.mins != [] && b.requests.maxs != []
      && Represents(Concurrent.Snapshot(b.requests),
                    Accepted(FloorRates(AllBusy(p.workers, WorkOf(steps))), 10_000_001))
  {
    RatesInHistogram(p, steps);
    AllRatesAreQuotients(p.workers, WorkOf(steps));
    hide Go, WorkOf, AllRates, AllBusy, Accepted, Represents;
    assert AllRates(p.workers, WorkOf(steps)) == FloorRates(AllBusy(p.workers, WorkOf(steps)));
  }

  lemma RatesInHistogram(p: Plan, steps: seq<Step>)
    requires Go(p, steps).Some? && AllFinished(Go(p, steps).value.system)
    ensures var b := Go(p, steps).value;
      && b.requests.mins != [] && b.requests.maxs != []
      && Represents(Concurrent.Snapshot(b.requests), Accepted(AllRates(p.workers, WorkOf(steps)), RATE_LIMIT))
  {
    var b, evs := Go(p, steps).value, WorkOf(steps);
    Projects(p, steps);
    RunKeepsEndedFree(p, steps);
    RateCallsTraced(p, evs);
    QuiescentHolds(RATE_LIMIT, p.workers, b.requests, RequestsOf(p, steps), RateCalls(p, evs));
    var called, traced := Accepted(RateCalls(p, evs), RATE_LIMIT), Accepted(AllRates(p.workers, evs), RATE_LIMIT);
    forall v: nat
      ensures Count(called, v) == Count(traced, v)
    {
      SameAccepted(RateCalls(p, evs), AllRates(p.workers, evs), RATE_LIMIT, v);
    }
    hide *;
    SameCounts(called, traced);
    RepresentsReordered(Concurrent.Snapshot(b.requests), called, traced);
  }

  lemma {:induction false} CountAccepted(a: seq<nat>, limit: nat, us: nat)
    ensures Count(Accepted(a, limit), us) == if us < limit then Count(a, us) else 0
  {
    if a == [] {
    } else {
      CountAccepted(Front(a), limit, us);
      CountConcat(Accepted(Front(a), limit), if Last(a) < limit then [Last(a)] else [], us);
      AcceptedOne([Last(a)], limit, us);
    }
  }

  lemma SameAccepted(a: seq<nat>, b: seq<nat>, limit: nat, v: nat)
    requires SameSamples(a, b)
    ensures Count(Accepted(a, limit), v) == Count(Accepted(b, limit), v)
  {
    CountAccepted(a, limit, v);
    CountAccepted(b, limit, v);
    CountIsMultiplicity(a, v);
    CountIsMultiplicity(b, v);
  }
}
