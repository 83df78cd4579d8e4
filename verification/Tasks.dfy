/** The loops as the program runs them: one task at a time, updating the shared
counters and the shared histogram in place. What the network and the stop flag do
is given as a list of turns. Each loop is proved to have the effect `Whole`, and
`Whole` to be a run of the stream machine of `Exchanges`. */
module Tasks {
  import opened Words
  import opened Exchanges
  import opened Histograms
  import opened Rates
  import opened Samples
  import St = Stats
  import Accounting

  /** What an exchange comes to; `Hangs` is an await that never returns. */
  datatype Reply = SendFails | ReadFails | Hangs | Answered(x: Exchange)

  /** One pass through the loop: the stop flag as read, and then the reply. */
  datatype Turn = Turn(stop: bool, reply: Reply)

  class Counters {
    var complete: nat
    var bytes: nat
    var errorsConnect: nat
    var errorsRead: nat
    var errorsWrite: nat
    var errorsStatus: nat
    var errorsTimeout: nat
    /** The worker's rate counter, a separate atomic in the program. */
    var rate: nat

    constructor ()
      ensures Snapshot() == NOTHING && rate == 0
    {
      complete, bytes, errorsConnect, errorsRead := 0, 0, 0, 0;
      errorsWrite, errorsStatus, errorsTimeout, rate := 0, 0, 0, 0;
    }

    /** `snapshot` */
    function Snapshot(): Tally
      reads this
    {
      Tally(complete, bytes, errorsConnect, errorsRead, errorsWrite, errorsStatus, errorsTimeout)
    }
  }

  // ---- big steps ----------------------------------------------------------

  function TurnEnd(cfg: Settings, local: nat, t: Turn): Stream {
    if t.stop then Ended
    else
      match t.reply
      case SendFails => Ended
      case ReadFails => Ended
      case Hangs => InFlight(local)
      case Answered(x) => if Late(cfg, x) && !cfg.proto.Http3? then Ended else Loop(local + 1)
  }

  function TurnBooks(cfg: Settings, local: nat, t: Turn): Books {
    if t.stop then BLANK.(tally := NOTHING.(complete := local))
    else
      match t.reply
      case SendFails => Books(NOTHING.(errorsWrite := 1, complete := local), [], 1)
      case ReadFails => Books(NOTHING.(errorsRead := 1, complete := local), [], 1)
      case Hangs => Books(NOTHING, [], 1)
      case Answered(x) => Books(AnswerTally(cfg, local, x), if IsOverdue(cfg, x) then [] else [ElapsedUs(x)], 1)
  }

  function AnswerTally(cfg: Settings, local: nat, x: Exchange): Tally {
    Tally(if Late(cfg, x) && !cfg.proto.Http3? then local + 1 else 0,
          if Late(cfg, x) && cfg.proto.Http3? then 0 else x.bytes,
          0, 0, 0,
          if x.status > 399 then 1 else 0,
          if IsOverdue(cfg, x) then 1 else 0)
  }

  /** The whole life of a stream; turns after its end are not taken. */
  function Whole(cfg: Settings, turns: seq<Turn>): Progress {
    if turns == [] then Progress(Loop(0), BLANK)
    else
      var p, t := Whole(cfg, turns[..|turns| - 1]), turns[|turns| - 1];
      if p.st.Loop? then Progress(TurnEnd(cfg, p.st.local, t), p.books.Plus(TurnBooks(cfg, p.st.local, t)))
      else p
  }

  /** The last turn taken saw the stop flag. */
  predicate StoppedIn(cfg: Settings, turns: seq<Turn>) {
    && turns != []
    && var before := turns[..|turns| - 1];
    if Whole(cfg, before).st.Loop? then turns[|turns| - 1].stop else StoppedIn(cfg, before)
  }

  lemma {:induction false} WholeStops(cfg: Settings, turns: seq<Turn>, i: nat)
    requires i <= |turns| && !Whole(cfg, turns[..i]).st.Loop?
    ensures Whole(cfg, turns) == Whole(cfg, turns[..i])
    ensures StoppedIn(cfg, turns) == StoppedIn(cfg, turns[..i])
  {
    if i == |turns| {
      assert turns[..i] == turns;
    } else {
      var before := turns[..|turns| - 1];
      assert before[..i] == turns[..i];
      WholeStops(cfg, before, i);
    }
  }

  // ---- big steps are runs of small steps ----------------------------------

  /** The operations of one turn, in program order. */
  function TurnOps(cfg: Settings, t: Turn): seq<Op> {
    if t.stop then [TestStop(true)] + [FlushLocal]
    else [TestStop(false)] + ([StartRequest] + ReplyOps(cfg, t.reply))
  }

  function ReplyOps(cfg: Settings, r: Reply): seq<Op> {
    match r
    case SendFails => [WriteError] + [FlushLocal]
    case ReadFails => [ReadError] + [FlushLocal]
    case Hangs => []
    case Answered(x) => [Answer(x)] + ([TestStatus] + ([TestTimeout] + VerdictOps(cfg, x)))
  }

  function VerdictOps(cfg: Settings, x: Exchange): seq<Op> {
    if Late(cfg, x) then (if cfg.proto.Http3? then [] else [FlushLocal])
    else [RecordLatency] + RecordedOps(cfg, x)
  }

  function RecordedOps(cfg: Settings, x: Exchange): seq<Op> {
    if IsOverdue(cfg, x) then [CountRefused] + CreditOps(cfg) else CreditOps(cfg)
  }

  function CreditOps(cfg: Settings): seq<Op> {
    if cfg.proto.Http3? then [AddBytes] else []
  }

  function Script(cfg: Settings, turns: seq<Turn>): seq<Op> {
    if turns == [] then []
    else
      var before := turns[..|turns| - 1];
      Script(cfg, before)
      + (if Whole(cfg, before).st.Loop? then TurnOps(cfg, turns[|turns| - 1]) else [])
  }

  /** The machine from a given state on, first operation first. */
  function PerformFrom(cfg: Settings, p: Progress, ops: seq<Op>): Option<Progress>
    decreases |ops|
  {
    if ops == [] then Some(p)
    else if !Can(p.st, ops[0]) then None
    else
      PerformFrom(cfg, Progress(StreamNext(cfg, p.st, ops[0]), p.books.Plus(Posting(cfg, p.st, ops[0]))), ops[1..])
  }

  lemma {:induction false} PerformConcat(cfg: Settings, a: seq<Op>, b: seq<Op>)
    requires Perform(cfg, a).Some?
    ensures Perform(cfg, a + b) == PerformFrom(cfg, Perform(cfg, a).value, b)
    decreases |b|
  {
    if b == [] {
      assert a + b == a;
    } else {
      var p := Perform(cfg, a).value;
      assert (a + [b[0]])[..|a|] == a;
      assert a + b == (a + [b[0]]) + b[1..];
      if Can(p.st, b[0]) {
        PerformConcat(cfg, a + [b[0]], b[1..]);
      } else {
        StuckStays(cfg, a + [b[0]], b[1..]);
      }
    }
  }

  lemma {:induction false} StuckStays(cfg: Settings, a: seq<Op>, b: seq<Op>)
    requires Perform(cfg, a).None?
    ensures Perform(cfg, a + b).None?
  {
    if b == [] {
      assert a + b == a;
    } else {
      StuckStays(cfg, a, b[..|b| - 1]);
      assert (a + b)[..|a + b| - 1] == a + b[..|b| - 1];
    }
  }

  /** One operation in front of the rest. */
  lemma OneOp(cfg: Settings, st: Stream, books: Books, op: Op, rest: seq<Op>)
    requires Can(st, op)
    ensures PerformFrom(cfg, Progress(st, books), [op] + rest)
         == PerformFrom(cfg, Progress(StreamNext(cfg, st, op), books.Plus(Posting(cfg, st, op))), rest)
  {
    assert ([op] + rest)[1..] == rest;
  }

  /** The run of `ops` from `st` ends in `st'` and posts `b`, whatever was posted before. */
  ghost predicate Leads(cfg: Settings, st: Stream, ops: seq<Op>, st': Stream, b: Books) {
    forall books :: PerformFrom(cfg, Progress(st, books), ops) == Some(Progress(st', books.Plus(b)))
  }

  lemma LeadsNowhere(cfg: Settings, st: Stream)
    ensures Leads(cfg, st, [], st, BLANK)
  {
    forall books ensures PerformFrom(cfg, Progress(st, books), []) == Some(Progress(st, books.Plus(BLANK))) {
      PlusBlank(books);
    }
  }

  lemma LeadsOn(cfg: Settings, st: Stream, op: Op, rest: seq<Op>, st': Stream, b: Books)
    requires Can(st, op) && Leads(cfg, StreamNext(cfg, st, op), rest, st', b)
    ensures Leads(cfg, st, [op] + rest, st', Posting(cfg, st, op).Plus(b))
  {
    var next, posting := StreamNext(cfg, st, op), Posting(cfg, st, op);
    hide StreamNext, Posting, Can;
    forall books
      ensures PerformFrom(cfg, Progress(st, books), [op] + rest) == Some(Progress(st', books.Plus(posting.Plus(b))))
    {
      OneOp(cfg, st, books, op, rest);
      PlusAssociative(books, posting, b);
    }
  }

  lemma FlushLeads(cfg: Settings, local: nat)
    ensures Leads(cfg, Flush(local), [FlushLocal], Ended, BLANK.(tally := NOTHING.(complete := local)))
  {
    LeadsNowhere(cfg, Ended);
    LeadsOn(cfg, Flush(local), FlushLocal, [], Ended, BLANK);
    hide Leads;
    assert [FlushLocal] + [] == [FlushLocal];
    PlusBlank(BLANK.(tally := NOTHING.(complete := local)));
  }

  function CreditBooks(cfg: Settings, x: Exchange): Books {
    BLANK.(tally := NOTHING.(bytes := if cfg.proto.Http3? then x.bytes else 0))
  }

  lemma CreditLeads(cfg: Settings, local: nat, x: Exchange)
    ensures Leads(cfg, AfterVerdict(cfg, local, x), CreditOps(cfg), Loop(local), CreditBooks(cfg, x))
  {
    LeadsNowhere(cfg, Loop(local));
    if cfg.proto.Http3? {
      LeadsOn(cfg, Bytes(local, x), AddBytes, [], Loop(local), BLANK);
      hide Leads;
      assert [AddBytes] + [] == [AddBytes];
      PlusBlank(CreditBooks(cfg, x));
    }
  }

  lemma RefusedLeads(cfg: Settings, local: nat, x: Exchange)
    ensures Leads(cfg, Refused(local, x), [CountRefused] + CreditOps(cfg), Loop(local),
                  BLANK.(tally := CreditBooks(cfg, x).tally.(errorsTimeout := 1)))
  {
    CreditLeads(cfg, local, x);
    LeadsOn(cfg, Refused(local, x), CountRefused, CreditOps(cfg), Loop(local), CreditBooks(cfg, x));
    hide Leads;
    PlusBlank(CreditBooks(cfg, x));
  }

  /** From the recording of the latency to the top of the loop. */
  lemma LatencyLeads(cfg: Settings, local: nat, x: Exchange)
    requires !Late(cfg, x)
    ensures Leads(cfg, Latency(local, x), [RecordLatency] + RecordedOps(cfg, x), Loop(local), RecordedBooks(cfg, x))
  {
    hide Leads;
    CreditLeads(cfg, local, x);
    RefusedLeads(cfg, local, x);
    var b := BLANK.(tally := CreditBooks(cfg, x).tally.(errorsTimeout := 1));
    AcceptLeads(cfg, local, x, CreditOps(cfg), CreditBooks(cfg, x));
    RefuseLeads(cfg, local, x, [CountRefused] + CreditOps(cfg), b);
    hide ElapsedUs;
  }

  lemma AcceptLeads(cfg: Settings, local: nat, x: Exchange, ops: seq<Op>, b: Books)
    requires Leads(cfg, AfterVerdict(cfg, local, x), ops, Loop(local), b) && b.recorded == []
    ensures ElapsedUs(x) < cfg.limit ==>
      Leads(cfg, Latency(local, x), [RecordLatency] + ops, Loop(local), b.(recorded := [ElapsedUs(x)]))
  {
    hide Leads, ElapsedUs;
    if ElapsedUs(x) < cfg.limit {
      LeadsOn(cfg, Latency(local, x), RecordLatency, ops, Loop(local), b);
      assert [ElapsedUs(x)] + b.recorded == [ElapsedUs(x)];
    }
  }

  lemma RefuseLeads(cfg: Settings, local: nat, x: Exchange, ops: seq<Op>, b: Books)
    requires Leads(cfg, Refused(local, x), ops, Loop(local), b)
    ensures ElapsedUs(x) >= cfg.limit ==>
      Leads(cfg, Latency(local, x), [RecordLatency] + ops, Loop(local), b)
  {
    hide Leads, ElapsedUs;
    if ElapsedUs(x) >= cfg.limit {
      LeadsOn(cfg, Latency(local, x), RecordLatency, ops, Loop(local), b);
      PlusBlank(b);
    }
  }

  /** What an exchange in time posts after its verdict. */
  function RecordedBooks(cfg: Settings, x: Exchange): Books {
    Books(CreditBooks(cfg, x).tally.(errorsTimeout := if IsOverdue(cfg, x) then 1 else 0),
          if IsOverdue(cfg, x) then [] else [ElapsedUs(x)], 0)
  }

  function VerdictBooks(cfg: Settings, local: nat, x: Exchange): Books {
    if Late(cfg, x) then
      BLANK.(tally := NOTHING.(errorsTimeout := 1, complete := if cfg.proto.Http3? then 0 else local))
    else RecordedBooks(cfg, x)
  }

  lemma VerdictLeads(cfg: Settings, local: nat, x: Exchange)
    ensures Leads(cfg, Timeout(local, x), [TestTimeout] + VerdictOps(cfg, x),
                  if Late(cfg, x) && !cfg.proto.Http3? then Ended else Loop(local), VerdictBooks(cfg, local, x))
  {
    hide Leads, ElapsedUs, IsOverdue;
    if !Late(cfg, x) {
      LatencyLeads(cfg, local, x);
      LeadsOn(cfg, Timeout(local, x), TestTimeout, VerdictOps(cfg, x), Loop(local), RecordedBooks(cfg, x));
      PlusBlank(RecordedBooks(cfg, x));
    } else if cfg.proto.Http3? {
      LeadsNowhere(cfg, Loop(local));
      LeadsOn(cfg, Timeout(local, x), TestTimeout, [], Loop(local), BLANK);
      PlusBlank(VerdictBooks(cfg, local, x));
    } else {
      FlushLeads(cfg, local);
      var b := BLANK.(tally := NOTHING.(complete := local));
      LeadsOn(cfg, Timeout(local, x), TestTimeout, [FlushLocal], Ended, b);
      PlusBlank(b);
    }
  }

  lemma StatusLeads(cfg: Settings, local: nat, x: Exchange, ops: seq<Op>, st: Stream, b: Books)
    requires Leads(cfg, Timeout(local, x), ops, st, b)
    ensures Leads(cfg, Status(local, x), [TestStatus] + ops, st,
                  b.(tally := b.tally.(errorsStatus := b.tally.errorsStatus + (if x.status > 399 then 1 else 0))))
  {
    hide Leads;
    LeadsOn(cfg, Status(local, x), TestStatus, ops, st, b);
    PlusBlank(b);
  }

  lemma AnswerLeads(cfg: Settings, local: nat, x: Exchange, ops: seq<Op>, st: Stream, b: Books)
    requires Leads(cfg, Status(local + 1, x), ops, st, b)
    ensures Leads(cfg, InFlight(local), [Answer(x)] + ops, st,
                  b.(tally := b.tally.(bytes := b.tally.bytes + (if cfg.proto.Http3? then 0 else x.bytes))))
  {
    hide Leads;
    LeadsOn(cfg, InFlight(local), Answer(x), ops, st, b);
    PlusBlank(b);
  }

  /** What follows the request: the reply and all it leads to. */
  function ReplyBooks(cfg: Settings, local: nat, r: Reply): Books {
    match r
    case SendFails => BLANK.(tally := NOTHING.(errorsWrite := 1, complete := local))
    case ReadFails => BLANK.(tally := NOTHING.(errorsRead := 1, complete := local))
    case Hangs => BLANK
    case Answered(x) =>
      BLANK.(tally := AnswerTally(cfg, local, x), recorded := if IsOverdue(cfg, x) then [] else [ElapsedUs(x)])
  }

  lemma ErrorLeads(cfg: Settings, local: nat, op: Op)
    requires op.WriteError? || op.ReadError?
    ensures Leads(cfg, InFlight(local), [op] + [FlushLocal], Ended,
                  ReplyBooks(cfg, local, if op.WriteError? then SendFails else ReadFails))
  {
    hide Leads;
    FlushLeads(cfg, local);
    var b := BLANK.(tally := NOTHING.(complete := local));
    LeadsOn(cfg, InFlight(local), op, [FlushLocal], Ended, b);
    PlusBlank(b);
  }

  lemma ReplyLeads(cfg: Settings, local: nat, r: Reply)
    ensures Leads(cfg, InFlight(local), ReplyOps(cfg, r),
                  TurnEnd(cfg, local, Turn(false, r)), ReplyBooks(cfg, local, r))
  {
    hide Leads;
    match r
    case SendFails => ErrorLeads(cfg, local, WriteError);
    case ReadFails => ErrorLeads(cfg, local, ReadError);
    case Hangs => LeadsNowhere(cfg, InFlight(local));
    case Answered(x) =>
      VerdictLeads(cfg, local + 1, x);
      var b, end := VerdictBooks(cfg, local + 1, x), TurnEnd(cfg, local, Turn(false, r));
      StatusLeads(cfg, local + 1, x, [TestTimeout] + VerdictOps(cfg, x), end, b);
      var c := b.(tally := b.tally.(errorsStatus := b.tally.errorsStatus + (if x.status > 399 then 1 else 0)));
      AnswerLeads(cfg, local, x, [TestStatus] + ([TestTimeout] + VerdictOps(cfg, x)), end, c);
  }

  /** A turn is a run of the machine from the top of the loop. */
  lemma TurnLeads(cfg: Settings, local: nat, t: Turn)
    ensures Leads(cfg, Loop(local), TurnOps(cfg, t), TurnEnd(cfg, local, t), TurnBooks(cfg, local, t))
  {
    hide Leads, IsOverdue, ElapsedUs, Late, AnswerTally;
    if t.stop {
      FlushLeads(cfg, local);
      LeadsOn(cfg, Loop(local), TestStop(true), [FlushLocal], Ended, TurnBooks(cfg, local, t));
      PlusBlank(TurnBooks(cfg, local, t));
    } else {
      ReplyLeads(cfg, local, t.reply);
      var b, end := ReplyBooks(cfg, local, t.reply), TurnEnd(cfg, local, t);
      LeadsOn(cfg, Send(local), StartRequest, ReplyOps(cfg, t.reply), end, b);
      PlusBlank(b);
      var c := b.(started := b.started + 1);
      LeadsOn(cfg, Loop(local), TestStop(false), [StartRequest] + ReplyOps(cfg, t.reply), end, c);
      PlusBlank(c);
    }
  }

  /** A whole task is a run of the machine of `Exchanges`. */
  lemma {:induction false} WholeIsARun(cfg: Settings, turns: seq<Turn>)
    ensures Perform(cfg, Script(cfg, turns)) == Some(Whole(cfg, turns))
  {
    if turns == [] {
    } else {
      var before, t := turns[..|turns| - 1], turns[|turns| - 1];
      var p := Whole(cfg, before);
      WholeIsARun(cfg, before);
      if p.st.Loop? {
        PerformConcat(cfg, Script(cfg, before), TurnOps(cfg, t));
        TurnLeads(cfg, p.st.local, t);
      } else {
        assert Script(cfg, before) + [] == Script(cfg, before);
      }
    }
  }

  /** Conservation for a task: what it posted and still holds is what its replies say. */
  lemma WholeBalances(cfg: Settings, turns: seq<Turn>, l: Ledger)
    ensures Posted(l, Whole(cfg, turns).books) + Pending(cfg, l, Whole(cfg, turns).st)
         == Entries(cfg, l, Script(cfg, turns))
  {
    WholeIsARun(cfg, turns);
    TaskBalances(cfg, l, Script(cfg, turns));
  }

  // ---- the loops ----------------------------------------------------------

  /** The shared state a task starts from. */
  datatype Origin = Origin(tally: Tally, rate: nat, histogram: Histogram)

  /** The shared state has moved on from `o` by exactly the books `b`. */
  ghost predicate At(counters: Counters, latency: St.Stats, o: Origin, b: Books)
    reads counters, latency, latency.data
  {
    && latency.Valid()
    && counters.Snapshot() == o.tally.Plus(b.tally)
    && counters.rate == o.rate + b.started
    && latency.View() == RecordAll(o.histogram, b.recorded)
  }

  /** What HTTP/1.1 and HTTP/2 do with an answered exchange: one that took longer than
      the timeout ends the stream. */
  method BookAnswer(cfg: Settings, x: Exchange, localComplete: nat, counters: Counters, latency: St.Stats)
    returns (goesOn: bool)
    requires latency.Valid() && latency.limit == cfg.limit
    modifies counters, latency, latency.data
    ensures latency.Valid()
    ensures goesOn <==> x.elapsedNs <= cfg.timeoutMs * 1_000_000
    ensures goesOn ==> latency.View() == Histograms.Record(old(latency.View()), x.elapsedNs / 1000)
    ensures !goesOn ==> latency.View() == old(latency.View())
    ensures counters.errorsTimeout
         == old(counters.errorsTimeout) + (if goesOn && x.elapsedNs / 1000 < cfg.limit then 0 else 1)
    ensures counters.complete == old(counters.complete) + (if goesOn then 0 else localComplete + 1)
    ensures counters.bytes == old(counters.bytes) + x.bytes
    ensures counters.errorsStatus == old(counters.errorsStatus) + (if x.status >= 400 then 1 else 0)
    ensures unchanged(counters`errorsConnect, counters`errorsRead, counters`errorsWrite, counters`rate)
  {
    SampleInRange(x, latency.View());
    hide Late, ElapsedUs, Histograms.Record;
    LateIs(cfg, x);
    counters.bytes := counters.bytes + x.bytes;
    var local := localComplete + 1;
    if x.status > 399 {
      counters.errorsStatus := counters.errorsStatus + 1;
    }
    if Late(cfg, x) {
      counters.errorsTimeout := counters.errorsTimeout + 1;
      counters.complete := counters.complete + local;
      return false;
    }
    var accepted := latency.Record(ElapsedUs(x), 0);
    if !accepted {
      counters.errorsTimeout := counters.errorsTimeout + 1;
    }
    return true;
  }

  lemma LateIs(cfg: Settings, x: Exchange)
    ensures Late(cfg, x) <==> x.elapsedNs > cfg.timeoutMs * 1_000_000
  {
  }

  /** A histogram cannot tell a saturated latency from the exact one. */
  lemma SampleInRange(x: Exchange, h: Histogram)
    requires |h.data| <= MAX_BUCKETS
    ensures ElapsedUs(x) < |h.data| <==> x.elapsedNs / 1000 < |h.data|
    ensures Histograms.Record(h, ElapsedUs(x)) == Histograms.Record(h, x.elapsedNs / 1000)
  {
  }

  /** What HTTP/3 does with it: one that took longer only loses its bytes. */
  method BookHttp3Answer(cfg: Settings, x: Exchange, counters: Counters, latency: St.Stats)
    requires latency.Valid() && latency.limit == cfg.limit
    modifies counters, latency, latency.data
    ensures latency.Valid()
    ensures var inTime := x.elapsedNs <= cfg.timeoutMs * 1_000_000;
      && latency.View() == (if inTime then Histograms.Record(old(latency.View()), x.elapsedNs / 1000)
                            else old(latency.View()))
      && counters.errorsTimeout
         == old(counters.errorsTimeout) + (if inTime && x.elapsedNs / 1000 < cfg.limit then 0 else 1)
      && counters.bytes == old(counters.bytes) + (if inTime then x.bytes else 0)
    ensures counters.errorsStatus == old(counters.errorsStatus) + (if x.status >= 400 then 1 else 0)
    ensures unchanged(counters`complete, counters`errorsConnect, counters`errorsRead, counters`errorsWrite,
                      counters`rate)
  {
    SampleInRange(x, latency.View());
    hide Late, ElapsedUs, Histograms.Record;
    LateIs(cfg, x);
    if x.status > 399 {
      counters.errorsStatus := counters.errorsStatus + 1;
    }
    if Late(cfg, x) {
      counters.errorsTimeout := counters.errorsTimeout + 1;
      return;
    }
    var accepted := latency.Record(ElapsedUs(x), 0);
    if !accepted {
      counters.errorsTimeout := counters.errorsTimeout + 1;
    }
    counters.bytes := counters.bytes + x.bytes;
  }

  /** What an answer posts, by its duration. */
  lemma AnswerBooks(cfg: Settings, local: nat, x: Exchange)
    requires cfg.limit <= U64_MAX
    ensures var b := ReplyBooks(cfg, local, Answered(x));
      var inTime := x.elapsedNs <= cfg.timeoutMs * 1_000_000;
      var kept := inTime && x.elapsedNs / 1000 < cfg.limit;
      && b.recorded == (if kept then [x.elapsedNs / 1000] else []) && b.started == 0
      && b.tally == Tally(if inTime || cfg.proto.Http3? then 0 else local + 1,
                          if inTime || !cfg.proto.Http3? then x.bytes else 0,
                          0, 0, 0, if x.status >= 400 then 1 else 0, if kept then 0 else 1)
  {
    OverdueIs(cfg, x);
  }

  /** The books grow with what was done to the shared state. */
  lemma AtMore(counters: Counters, latency: St.Stats, o: Origin, b: Books, c: Books)
    requires latency.Valid()
    requires counters.Snapshot() == o.tally.Plus(b.tally).Plus(c.tally)
    requires counters.rate == o.rate + b.started + c.started
    requires latency.View() == RecordAll(RecordAll(o.histogram, b.recorded), c.recorded)
    ensures At(counters, latency, o, b.Plus(c))
  {
    RecordAllConcat(o.histogram, b.recorded, c.recorded);
    hide RecordAll;
  }

  lemma RecordedList(h: Histogram, us: nat)
    ensures RecordAll(h, []) == h
    ensures RecordAll(h, [us]) == Histograms.Record(h, us)
    ensures us >= |h.data| ==> Histograms.Record(h, us) == h
  {
    assert Front([us]) == [];
  }

  /** An answered exchange in HTTP/1.1 and HTTP/2, against the books. */
  method Settle(cfg: Settings, x: Exchange, localComplete: nat, counters: Counters, latency: St.Stats,
                ghost o: Origin, ghost b: Books) returns (goesOn: bool)
    requires !cfg.proto.Http3? && latency.limit == cfg.limit && At(counters, latency, o, b)
    modifies counters, latency, latency.data
    ensures goesOn <==> x.elapsedNs <= cfg.timeoutMs * 1_000_000
    ensures goesOn <==> !Late(cfg, x)
    ensures At(counters, latency, o, b.Plus(ReplyBooks(cfg, localComplete, Answered(x))))
  {
    LateIs(cfg, x);
    AnswerBooks(cfg, localComplete, x);
    RecordedList(latency.View(), x.elapsedNs / 1000);
    hide ReplyBooks, Late, ElapsedUs, RecordAll, Histograms.Record;
    goesOn := BookAnswer(cfg, x, localComplete, counters, latency);
    AtMore(counters, latency, o, b, ReplyBooks(cfg, localComplete, Answered(x)));
  }

  /** An answered exchange in HTTP/3, against the books. */
  method SettleHttp3(cfg: Settings, x: Exchange, localComplete: nat, counters: Counters, latency: St.Stats,
                     ghost o: Origin, ghost b: Books)
    requires cfg.proto.Http3? && latency.limit == cfg.limit && At(counters, latency, o, b)
    modifies counters, latency, latency.data
    ensures At(counters, latency, o, b.Plus(ReplyBooks(cfg, localComplete, Answered(x))))
  {
    AnswerBooks(cfg, localComplete, x);
    RecordedList(latency.View(), x.elapsedNs / 1000);
    hide ReplyBooks, Late, ElapsedUs, RecordAll, Histograms.Record;
    BookHttp3Answer(cfg, x, counters, latency);
    AtMore(counters, latency, o, b, ReplyBooks(cfg, localComplete, Answered(x)));
  }

  /** The request failed: one of the two error counters, and the flush. */
  method Fail(cfg: Settings, write: bool, localComplete: nat, counters: Counters, latency: St.Stats,
              ghost o: Origin, ghost b: Books)
    requires At(counters, latency, o, b)
    modifies counters
    ensures At(counters, latency, o,
               b.Plus(ReplyBooks(cfg, localComplete, if write then SendFails else ReadFails)))
    ensures counters.errorsWrite == old(counters.errorsWrite) + (if write then 1 else 0)
    ensures counters.errorsRead == old(counters.errorsRead) + (if write then 0 else 1)
    ensures counters.complete == old(counters.complete) + localComplete
  {
    if write {
      counters.errorsWrite := counters.errorsWrite + 1;
    } else {
      counters.errorsRead := counters.errorsRead + 1;
    }
    counters.complete := counters.complete + localComplete;
    assert b.recorded + [] == b.recorded;
  }

  method FlushCount(localComplete: nat, counters: Counters, latency: St.Stats, ghost o: Origin, ghost b: Books)
    requires At(counters, latency, o, b)
    modifies counters
    ensures At(counters, latency, o, b.Plus(BLANK.(tally := NOTHING.(complete := localComplete))))
    ensures counters.complete == old(counters.complete) + localComplete
  {
    counters.complete := counters.complete + localComplete;
    assert b.recorded + [] == b.recorded;
  }

  method StartOne(counters: Counters, latency: St.Stats, ghost o: Origin, ghost b: Books)
    requires At(counters, latency, o, b)
    modifies counters
    ensures At(counters, latency, o, b.Plus(BLANK.(started := 1)))
    ensures counters.rate == old(counters.rate) + 1
  {
    counters.rate := counters.rate + 1;
    assert b.recorded + [] == b.recorded;
  }

  /** The books of a turn, in the order in which they are posted. */
  lemma TurnBooksSplit(cfg: Settings, local: nat, t: Turn, b: Books)
    ensures !t.stop ==>
      b.Plus(BLANK.(started := 1)).Plus(ReplyBooks(cfg, local, t.reply)) == b.Plus(TurnBooks(cfg, local, t))
  {
    if !t.stop {
      var r := ReplyBooks(cfg, local, t.reply);
      PlusAssociative(b, BLANK.(started := 1), r);
      PlusBlank(r);
    }
  }

  /** The stream after turn `i`. */
  lemma WholeStep(cfg: Settings, turns: seq<Turn>, i: nat)
    requires i < |turns| && Whole(cfg, turns[..i]).st.Loop?
    ensures var p := Whole(cfg, turns[..i]);
      && Whole(cfg, turns[..i + 1])
         == Progress(TurnEnd(cfg, p.st.local, turns[i]), p.books.Plus(TurnBooks(cfg, p.st.local, turns[i])))
      && StoppedIn(cfg, turns[..i + 1]) == turns[i].stop
      && (!TurnEnd(cfg, p.st.local, turns[i]).Loop? ==>
            Whole(cfg, turns) == Whole(cfg, turns[..i + 1]) && StoppedIn(cfg, turns) == turns[i].stop)
  {
    assert turns[..i + 1][..i] == turns[..i];
    if !TurnEnd(cfg, Whole(cfg, turns[..i]).st.local, turns[i]).Loop? {
      WholeStops(cfg, turns, i + 1);
    }
  }

  /** The request loop of `run_connection` (HTTP/1.1), up to its `break` or
      `return`. The results are the local count lost if the task is dropped, and
      whether the loop was left by a `break`, so that the task connects again. */
  method RunHttp1Requests(cfg: Settings, turns: seq<Turn>, counters: Counters, latency: St.Stats)
    returns (lost: nat, broken: bool)
    requires cfg.proto.Http1? && latency.Valid() && latency.limit == cfg.limit
    modifies counters, latency, latency.data
    ensures At(counters, latency, old(Origin(counters.Snapshot(), counters.rate, latency.View())),
               Whole(cfg, turns).books)
    ensures lost == Pending(cfg, Completed, Whole(cfg, turns).st)
    ensures broken <==> Whole(cfg, turns).st.Ended? && !StoppedIn(cfg, turns)
  {
    hide At, TurnBooks, ReplyBooks, Late;
    ghost var o, b := Origin(counters.Snapshot(), counters.rate, latency.View()), BLANK;
    AtStart(counters, latency);
    var localComplete := 0;
    var i := 0;
    while i < |turns|
      invariant i <= |turns|
      invariant Whole(cfg, turns[..i]) == Progress(Loop(localComplete), b)
      invariant At(counters, latency, o, b)
    {
      var t := turns[i];
      WholeStep(cfg, turns, i);
      TurnBooksSplit(cfg, localComplete, t, b);
      if t.stop {
        StopBooks(cfg, localComplete, t);
        FlushCount(localComplete, counters, latency, o, b);
        return 0, false;
      }
      StartOne(counters, latency, o, b);
      ghost var started := b.Plus(BLANK.(started := 1));
      match t.reply {
        case Hangs =>
          HangBooks(cfg, localComplete, started);
          return localComplete, false;
        case SendFails =>
          Fail(cfg, true, localComplete, counters, latency, o, started);
          return 0, true;
        case ReadFails =>
          Fail(cfg, false, localComplete, counters, latency, o, started);
          return 0, true;
        case Answered(x) =>
          var goesOn := Settle(cfg, x, localComplete, counters, latency, o, started);
          if !goesOn {
            return 0, true;
          }
      }
      b := b.Plus(TurnBooks(cfg, localComplete, t));
      localComplete := localComplete + 1;
      i := i + 1;
    }
    assert turns[..i] == turns;
    return localComplete, false;
  }

  /** `run_h2_stream`: the flag is the loop's guard, and the flush follows the loop. */
  method RunHttp2Stream(cfg: Settings, turns: seq<Turn>, counters: Counters, latency: St.Stats)
    returns (lost: nat)
    requires cfg.proto.Http2? && latency.Valid() && latency.limit == cfg.limit
    modifies counters, latency, latency.data
    ensures At(counters, latency, old(Origin(counters.Snapshot(), counters.rate, latency.View())),
               Whole(cfg, turns).books)
    ensures lost == Pending(cfg, Completed, Whole(cfg, turns).st)
  {
    hide At, TurnBooks, ReplyBooks, Late;
    ghost var o, b := Origin(counters.Snapshot(), counters.rate, latency.View()), BLANK;
    AtStart(counters, latency);
    var localComplete := 0;
    var i := 0;
    while i < |turns| && !turns[i].stop
      invariant i <= |turns|
      invariant Whole(cfg, turns[..i]) == Progress(Loop(localComplete), b)
      invariant At(counters, latency, o, b)
    {
      var t := turns[i];
      WholeStep(cfg, turns, i);
      TurnBooksSplit(cfg, localComplete, t, b);
      StartOne(counters, latency, o, b);
      ghost var started := b.Plus(BLANK.(started := 1));
      match t.reply {
        case Hangs =>
          HangBooks(cfg, localComplete, started);
          return localComplete;
        case SendFails =>
          Fail(cfg, true, localComplete, counters, latency, o, started);
          return 0;
        case ReadFails =>
          Fail(cfg, false, localComplete, counters, latency, o, started);
          return 0;
        case Answered(x) =>
          var goesOn := Settle(cfg, x, localComplete, counters, latency, o, started);
          if !goesOn {
            return 0;
          }
      }
      b := b.Plus(TurnBooks(cfg, localComplete, t));
      localComplete := localComplete + 1;
      i := i + 1;
    }
    if i < |turns| {
      WholeStep(cfg, turns, i);
      StopBooks(cfg, localComplete, turns[i]);
      FlushCount(localComplete, counters, latency, o, b);
      return 0;
    }
    assert turns[..i] == turns;
    return localComplete;
  }

  /** `run_h3_stream`: a timeout does not end the stream. */
  method RunHttp3Stream(cfg: Settings, turns: seq<Turn>, counters: Counters, latency: St.Stats)
    returns (lost: nat)
    requires cfg.proto.Http3? && latency.Valid() && latency.limit == cfg.limit
    modifies counters, latency, latency.data
    ensures At(counters, latency, old(Origin(counters.Snapshot(), counters.rate, latency.View())),
               Whole(cfg, turns).books)
    ensures lost == Pending(cfg, Completed, Whole(cfg, turns).st)
  {
    hide At, TurnBooks, ReplyBooks, Late;
    ghost var o, b := Origin(counters.Snapshot(), counters.rate, latency.View()), BLANK;
    AtStart(counters, latency);
    var localComplete := 0;
    var i := 0;
    while i < |turns| && !turns[i].stop
      invariant i <= |turns|
      invariant Whole(cfg, turns[..i]) == Progress(Loop(localComplete), b)
      invariant At(counters, latency, o, b)
    {
      var t := turns[i];
      WholeStep(cfg, turns, i);
      TurnBooksSplit(cfg, localComplete, t, b);
      StartOne(counters, latency, o, b);
      ghost var started := b.Plus(BLANK.(started := 1));
      match t.reply {
        case Hangs =>
          HangBooks(cfg, localComplete, started);
          return localComplete;
        case SendFails =>
          Fail(cfg, true, localComplete, counters, latency, o, started);
          return 0;
        case ReadFails =>
          Fail(cfg, false, localComplete, counters, latency, o, started);
          return 0;
        case Answered(x) =>
          SettleHttp3(cfg, x, localComplete, counters, latency, o, started);
      }
      b := b.Plus(TurnBooks(cfg, localComplete, t));
      localComplete := localComplete + 1;
      i := i + 1;
    }
    if i < |turns| {
      WholeStep(cfg, turns, i);
      StopBooks(cfg, localComplete, turns[i]);
      FlushCount(localComplete, counters, latency, o, b);
      return 0;
    }
    assert turns[..i] == turns;
    return localComplete;
  }

  lemma AtStart(counters: Counters, latency: St.Stats)
    requires latency.Valid()
    ensures At(counters, latency, Origin(counters.Snapshot(), counters.rate, latency.View()), BLANK)
  {
  }

  lemma StopBooks(cfg: Settings, local: nat, t: Turn)
    requires t.stop
    ensures TurnBooks(cfg, local, t) == BLANK.(tally := NOTHING.(complete := local))
  {
  }

  lemma HangBooks(cfg: Settings, local: nat, b: Books)
    ensures b.Plus(ReplyBooks(cfg, local, Hangs)) == b
  {
    PlusBlank(b);
  }

  // ---- the rate recorder --------------------------------------------------

  /** `run_rate_recorder`: in each interval the tasks add to the rate counter, and the
      recorder takes out all that is in it. */
  method RunRateRecorder(ticks: seq<Tick>, counters: Counters, requests: St.Stats) returns (swapped: nat)
    requires requests.Valid()
    modifies counters`rate, requests, requests.data
    ensures requests.Valid()
    ensures requests.View() == RecordAll(old(requests.View()), RatesOf(Carried(old(counters.rate), ticks)))
    ensures swapped == SwappedOf(Carried(old(counters.rate), ticks))
    ensures counters.rate == if ticks == [] then old(counters.rate) else 0
  {
    hide RatePerSecond, RecordAll, Stopped, RatesOf, SwappedOf, Carried, RateList;
    ghost var all := Carried(counters.rate, ticks);
    NoTicks(requests.View());
    swapped := 0;
    var i := 0;
    while i < |ticks|
      invariant i <= |ticks| && requests.Valid() && !Stopped(all[..i])
      invariant requests.View() == RecordAll(old(requests.View()), RatesOf(all[..i]))
      invariant swapped == SwappedOf(all[..i])
      invariant counters.rate == if i == 0 then old(counters.rate) else 0
    {
      counters.rate := counters.rate + ticks[i].reqs;
      var reqs := counters.rate;
      counters.rate := 0;
      assert all[..i + 1] == all[..i] + [all[i]];
      OneMoreTick(all[..i], all[i]);
      swapped := swapped + reqs;
      RecordRate(reqs, ticks[i].elapsedMs, requests);
      RecordAllConcat(old(requests.View()), RatesOf(all[..i]), RateList(reqs, ticks[i].elapsedMs));
      if ticks[i].stop {
        AfterStop(all, i + 1);
        return;
      }
      i := i + 1;
    }
    assert all[..i] == all;
  }

  /** An idle interval records nothing. */
  method RecordRate(reqs: nat, elapsedMs: nat, requests: St.Stats)
    requires requests.Valid()
    modifies requests, requests.data
    ensures requests.Valid()
    ensures requests.View() == RecordAll(old(requests.View()), RateList(reqs, elapsedMs))
    ensures reqs == 0 ==> requests.View() == old(requests.View())
    ensures reqs > 0 ==>
      requests.View() == Histograms.Record(old(requests.View()), Min(reqs * 1000 / Max(elapsedMs, 1), U64_MAX))
  {
    hide RatePerSecond, Histograms.Record;
    RateIsFloor(reqs, elapsedMs);
    if reqs > 0 {
      var rate := RatePerSecond(reqs, elapsedMs);
      assert Front([rate]) == [];
      var accepted := requests.Record(rate, 0);
    }
  }

  lemma NoTicks(h: Histogram)
    ensures !Stopped([]) && RatesOf([]) == [] && SwappedOf([]) == 0 && RecordAll(h, []) == h
  {
  }

  // ---- adding up the snapshots --------------------------------------------

  function SumOf(snapshots: seq<Tally>): Tally {
    if snapshots == [] then NOTHING
    else SumOf(snapshots[..|snapshots| - 1]).Plus(snapshots[|snapshots| - 1])
  }

  /** `CounterSnapshot::sum` */
  method Sum(snapshots: seq<Tally>) returns (t: Tally)
    ensures t == SumOf(snapshots)
  {
    t := NOTHING;
    for i := 0 to |snapshots|
      invariant t == SumOf(snapshots[..i])
    {
      var s := snapshots[i];
      assert snapshots[..i + 1][..i] == snapshots[..i];
      t := Tally(t.complete + s.complete, t.bytes + s.bytes, t.errorsConnect + s.errorsConnect,
                 t.errorsRead + s.errorsRead, t.errorsWrite + s.errorsWrite,
                 t.errorsStatus + s.errorsStatus, t.errorsTimeout + s.errorsTimeout);
    }
    assert snapshots[..|snapshots|] == snapshots;
  }

  /** The sum of the workers' snapshots is the tally of all their books. */
  lemma {:induction false} SumOfWorkers(workers: seq<Accounting.Worker>)
    ensures SumOf(seq(|workers|, i requires 0 <= i < |workers| => workers[i].books.tally))
         == Accounting.TotalBooks(workers).tally
  {
    if workers == [] {
    } else {
      var n := |workers| - 1;
      SumOfWorkers(workers[..n]);
      var all := seq(|workers|, i requires 0 <= i < |workers| => workers[i].books.tally);
      assert all[..n] == seq(n, i requires 0 <= i < n => workers[..n][i].books.tally);
    }
  }
}
