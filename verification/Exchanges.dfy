/** One stream of requests: the loop of `run_connection`, `run_h2_stream` and
`run_h3_stream`, one await or one atomic operation per step. The network decides
what an await returns; the step that takes the answer is `Answer`. */
module Exchanges {
  import opened Words
  import opened Samples

  datatype Protocol = Http1 | Http2 | Http3

  /** A response that has been read to its end. `bytes` is what the client counts for it. */
  datatype Exchange = Exchange(status: nat, elapsedNs: nat, bytes: nat)

  /** `limit` is the number of buckets of the shared latency histogram. */
  datatype Settings = Settings(proto: Protocol, timeoutMs: nat, limit: nat)

  /** The fields of `Counters` and of `CounterSnapshot`. */
  datatype Tally = Tally(
    complete: nat, bytes: nat, errorsConnect: nat, errorsRead: nat,
    errorsWrite: nat, errorsStatus: nat, errorsTimeout: nat)
  {
    function Plus(t: Tally): Tally {
      Tally(complete + t.complete, bytes + t.bytes, errorsConnect + t.errorsConnect,
            errorsRead + t.errorsRead, errorsWrite + t.errorsWrite,
            errorsStatus + t.errorsStatus, errorsTimeout + t.errorsTimeout)
    }
  }

  const NOTHING := Tally(0, 0, 0, 0, 0, 0, 0)

  /** Everything the tasks of a worker post outside themselves: the counters, the
      accepted latency samples, and the number of requests started. */
  datatype Books = Books(tally: Tally, recorded: seq<nat>, started: nat) {
    function Plus(b: Books): Books {
      Books(tally.Plus(b.tally), recorded + b.recorded, started + b.started)
    }
  }

  const BLANK := Books(NOTHING, [], 0)

  /** The posted books of several steps, added up. */
  lemma PlusAssociative(a: Books, b: Books, c: Books)
    ensures a.Plus(b).Plus(c) == a.Plus(b.Plus(c))
  {
    assert (a.recorded + b.recorded) + c.recorded == a.recorded + (b.recorded + c.recorded);
  }

  lemma PlusBlank(a: Books)
    ensures a.Plus(BLANK) == a && BLANK.Plus(a) == a
  {
    assert a.recorded + [] == a.recorded && [] + a.recorded == a.recorded;
  }

  /** Microseconds, saturated to 64 bits. */
  function ElapsedUs(x: Exchange): nat {
    Min(x.elapsedNs / 1000, U64_MAX)
  }

  /** The comparison is on the exact duration, not on the rounded one. */
  predicate Late(cfg: Settings, x: Exchange) {
    x.elapsedNs > cfg.timeoutMs * 1_000_000
  }

  /** Where a stream is; each name is the next operation. `local` is the
      unflushed `local_complete`, which from `Status` on includes `x`. */
  datatype Stream =
    | Loop(local: nat)
    | Send(local: nat)
    | InFlight(local: nat)
    | Status(local: nat, x: Exchange)
    | Timeout(local: nat, x: Exchange)
    | Latency(local: nat, x: Exchange)
    | Refused(local: nat, x: Exchange)
    | Bytes(local: nat, x: Exchange)
    | Flush(local: nat)
    | Ended

  datatype Op =
    | TestStop(stop: bool)
    | StartRequest
    | WriteError
    | ReadError
    | Answer(x: Exchange)
    | TestStatus
    | TestTimeout
    | RecordLatency
    | CountRefused
    | AddBytes
    | FlushLocal

  predicate Can(st: Stream, op: Op) {
    match op
    case TestStop(_) => st.Loop?
    case StartRequest => st.Send?
    case WriteError => st.InFlight?
    case ReadError => st.InFlight?
    case Answer(_) => st.InFlight?
    case TestStatus => st.Status?
    case TestTimeout => st.Timeout?
    case RecordLatency => st.Latency?
    case CountRefused => st.Refused?
    case AddBytes => st.Bytes?
    case FlushLocal => st.Flush?
  }

  /** HTTP/3 adds the bytes only after an exchange was in time. */
  function AfterVerdict(cfg: Settings, local: nat, x: Exchange): Stream {
    if cfg.proto.Http3? then Bytes(local, x) else Loop(local)
  }

  function StreamNext(cfg: Settings, st: Stream, op: Op): Stream
    requires Can(st, op)
  {
    match op
    case TestStop(stop) => if stop then Flush(st.local) else Send(st.local)
    case StartRequest => InFlight(st.local)
    case WriteError => Flush(st.local)
    case ReadError => Flush(st.local)
    case Answer(x) => Status(st.local + 1, x)
    case TestStatus => Timeout(st.local, st.x)
    case TestTimeout =>
      if !Late(cfg, st.x) then Latency(st.local, st.x)
      else if cfg.proto.Http3? then Loop(st.local)
      else Flush(st.local)
    case RecordLatency =>
      if ElapsedUs(st.x) < cfg.limit then AfterVerdict(cfg, st.local, st.x) else Refused(st.local, st.x)
    case CountRefused => AfterVerdict(cfg, st.local, st.x)
    case AddBytes => Loop(st.local)
    case FlushLocal => Ended
  }

  /** What the step posts. */
  function Posting(cfg: Settings, st: Stream, op: Op): Books
    requires Can(st, op)
  {
    match op
    case StartRequest => BLANK.(started := 1)
    case WriteError => BLANK.(tally := NOTHING.(errorsWrite := 1))
    case ReadError => BLANK.(tally := NOTHING.(errorsRead := 1))
    case Answer(x) => if cfg.proto.Http3? then BLANK else BLANK.(tally := NOTHING.(bytes := x.bytes))
    case TestStatus => if st.x.status > 399 then BLANK.(tally := NOTHING.(errorsStatus := 1)) else BLANK
    case TestTimeout => if Late(cfg, st.x) then BLANK.(tally := NOTHING.(errorsTimeout := 1)) else BLANK
    case RecordLatency => if ElapsedUs(st.x) < cfg.limit then BLANK.(recorded := [ElapsedUs(st.x)]) else BLANK
    case CountRefused => BLANK.(tally := NOTHING.(errorsTimeout := 1))
    case AddBytes => BLANK.(tally := NOTHING.(bytes := st.x.bytes))
    case FlushLocal => BLANK.(tally := NOTHING.(complete := st.local))
    case TestStop(_) => BLANK
  }

  // ---- ledgers ------------------------------------------------------------

  /** One law of conservation each: what is posted plus what is still pending
      inside the streams is what the trace of events says happened. */
  datatype Ledger =
    | Completed          // exchanges finished
    | Judged             // exchanges put into the histogram or among the timeouts
    | Overdue            // exchanges counted as timeouts
    | Sampled(us: nat)   // exchanges recorded with this latency
    | Statuses           // responses with status > 399
    | Credited           // bytes
    | Requests           // requests started
    | Flights            // requests not answered
    | WriteErrors
    | ReadErrors
    | ConnectErrors

  predicate IsOverdue(cfg: Settings, x: Exchange) {
    Late(cfg, x) || ElapsedUs(x) >= cfg.limit
  }

  predicate IsSample(cfg: Settings, x: Exchange, us: nat) {
    !IsOverdue(cfg, x) && ElapsedUs(x) == us
  }

  function One(b: bool): int {
    if b then 1 else 0
  }

  function Posted(l: Ledger, b: Books): int {
    match l
    case Completed => b.tally.complete
    case Judged => b.tally.errorsTimeout + |b.recorded|
    case Overdue => b.tally.errorsTimeout
    case Sampled(us) => Count(b.recorded, us)
    case Statuses => b.tally.errorsStatus
    case Credited => b.tally.bytes
    case Requests => b.started
    case Flights => b.tally.errorsWrite + b.tally.errorsRead
    case WriteErrors => b.tally.errorsWrite
    case ReadErrors => b.tally.errorsRead
    case ConnectErrors => b.tally.errorsConnect
  }

  /** What a stream still owes to a ledger. */
  function Pending(cfg: Settings, l: Ledger, st: Stream): int {
    match l
    case Completed => if st.Ended? then 0 else st.local
    case Judged => One(st.Status? || st.Timeout? || st.Latency? || st.Refused?)
    case Overdue => One(
      || ((st.Status? || st.Timeout?) && IsOverdue(cfg, st.x))
      || (st.Latency? && ElapsedUs(st.x) >= cfg.limit)
      || st.Refused?)
    case Sampled(us) => One(
      || ((st.Status? || st.Timeout?) && IsSample(cfg, st.x, us))
      || (st.Latency? && ElapsedUs(st.x) < cfg.limit && ElapsedUs(st.x) == us))
    case Statuses => One(st.Status? && st.x.status > 399)
    case Credited =>
      if !cfg.proto.Http3? then 0
      else if st.Status? || st.Timeout? then (if Late(cfg, st.x) then 0 else st.x.bytes)
      else if st.Latency? || st.Refused? || st.Bytes? then st.x.bytes
      else 0
    case Flights => One(st.InFlight?)
    case _ => 0
  }

  /** What an operation means for a ledger, read off the trace alone. */
  function Entry(cfg: Settings, l: Ledger, op: Op): int {
    match l
    case Completed => One(op.Answer?)
    case Judged => One(op.Answer?)
    case Overdue => One(op.Answer? && IsOverdue(cfg, op.x))
    case Sampled(us) => One(op.Answer? && IsSample(cfg, op.x, us))
    case Statuses => One(op.Answer? && op.x.status > 399)
    case Credited => if op.Answer? && !(cfg.proto.Http3? && Late(cfg, op.x)) then op.x.bytes else 0
    case Requests => One(op.StartRequest?)
    case Flights => One(op.StartRequest?) - One(op.Answer?)
    case WriteErrors => One(op.WriteError?)
    case ReadErrors => One(op.ReadError?)
    case ConnectErrors => 0
  }

  /** Every step of every protocol balances every ledger. */
  lemma StepBalances(cfg: Settings, l: Ledger, st: Stream, op: Op)
    requires Can(st, op)
    requires cfg.proto.Http3? || !st.Bytes?
    ensures Posted(l, Posting(cfg, st, op)) + Pending(cfg, l, StreamNext(cfg, st, op))
         == Pending(cfg, l, st) + Entry(cfg, l, op)
    ensures cfg.proto.Http3? || !StreamNext(cfg, st, op).Bytes?
  {
    match l
    case Sampled(us) =>
      assert Count([], us) == 0;
      if op.RecordLatency? {
        var u := ElapsedUs(st.x);
        assert Front([u]) == [] && Count([u], us) == One(u == us);
      }
    case _ =>
  }

  lemma PostedPlus(l: Ledger, a: Books, b: Books)
    ensures Posted(l, a.Plus(b)) == Posted(l, a) + Posted(l, b)
  {
    if l.Sampled? {
      CountConcat(a.recorded, b.recorded, l.us);
    }
  }

  /** The recorded latency is in whole microseconds, rounded down; durations beyond the
      range of a word saturate. */
  lemma ElapsedIsMicroseconds(x: Exchange)
    ensures x.elapsedNs < U64_SIZE * 1000 ==>
      ElapsedUs(x) == x.elapsedNs / 1000 && ElapsedUs(x) * 1000 <= x.elapsedNs < (ElapsedUs(x) + 1) * 1000
    ensures x.elapsedNs >= U64_SIZE * 1000 ==> ElapsedUs(x) == U64_MAX
  {
    assert x.elapsedNs == 1000 * (x.elapsedNs / 1000) + x.elapsedNs % 1000;
  }

  /** With the histogram sized from the timeout (`timeout * 1000` as its largest
      value), it refuses no exchange that was in time: the timeouts are exactly those
      that took longer than the timeout. One that takes exactly the timeout is recorded. */
  lemma SizedHistogramRefusesNothing(cfg: Settings, x: Exchange)
    requires cfg.limit == cfg.timeoutMs * 1000 + 1
    ensures IsOverdue(cfg, x) <==> x.elapsedNs > cfg.timeoutMs * 1_000_000
    ensures x.elapsedNs <= cfg.timeoutMs * 1_000_000 ==> ElapsedUs(x) <= cfg.timeoutMs * 1000 < cfg.limit
    ensures x.elapsedNs == cfg.timeoutMs * 1_000_000 && ElapsedUs(x) < U64_MAX ==>
      ElapsedUs(x) == cfg.timeoutMs * 1000
  {
    DivideThousand(x.elapsedNs, cfg.timeoutMs * 1000);
  }

  /** Whatever its size, up to the largest word: what it refuses or what is late. */
  lemma OverdueIs(cfg: Settings, x: Exchange)
    requires cfg.limit <= U64_MAX
    ensures IsOverdue(cfg, x) <==> x.elapsedNs > cfg.timeoutMs * 1_000_000 || x.elapsedNs / 1000 >= cfg.limit
    ensures !IsOverdue(cfg, x) ==> ElapsedUs(x) == x.elapsedNs / 1000
  {
  }

  lemma DivideThousand(ns: nat, us: nat)
    ensures ns <= us * 1000 ==> ns / 1000 <= us
    ensures ns == us * 1000 ==> ns / 1000 == us
  {
  }

  // ---- a whole task -------------------------------------------------------

  datatype Progress = Progress(st: Stream, books: Books)

  /** A stream run through a list of operations, from its first test of `stop`. */
  function Perform(cfg: Settings, ops: seq<Op>): Option<Progress> {
    if ops == [] then Some(Progress(Loop(0), BLANK))
    else
      match Perform(cfg, ops[..|ops| - 1])
      case None => None
      case Some(p) =>
        var op := ops[|ops| - 1];
        if Can(p.st, op) then Some(Progress(StreamNext(cfg, p.st, op), p.books.Plus(Posting(cfg, p.st, op))))
        else None
  }

  function Entries(cfg: Settings, l: Ledger, ops: seq<Op>): int {
    if ops == [] then 0 else Entries(cfg, l, ops[..|ops| - 1]) + Entry(cfg, l, ops[|ops| - 1])
  }

  /** The books of one task balance at every moment of its life. */
  lemma {:induction false} TaskBalances(cfg: Settings, l: Ledger, ops: seq<Op>)
    requires Perform(cfg, ops).Some?
    ensures var p := Perform(cfg, ops).value;
      && Posted(l, p.books) + Pending(cfg, l, p.st) == Entries(cfg, l, ops)
      && (cfg.proto.Http3? || !p.st.Bytes?)
  {
    if ops == [] {
    } else {
      var before, op := ops[..|ops| - 1], ops[|ops| - 1];
      TaskBalances(cfg, l, before);
      var p := Perform(cfg, before).value;
      StepBalances(cfg, l, p.st, op);
      PostedPlus(l, p.books, Posting(cfg, p.st, op));
    }
  }
}
