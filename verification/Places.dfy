/** Where the tasks of a run are, read off the trace alone, and what each may do next. */
module Places {

  import opened Accounting
  import opened Exchanges
  import opened Words

  // ---- the trace ----------------------------------------------------------

  /** The last step of connection `c` of worker `w` that was not one of its streams'. */
  function LastMove(w: nat, c: nat, evs: seq<Event>): Option<TaskStep> {
    if evs == [] then None
    else
      var ev := evs[|evs| - 1];
      if ev.Task? && ev.w == w && ev.c == c && !ev.step.StreamOp? then Some(ev.step)
      else LastMove(w, c, evs[..|evs| - 1])
  }

  /** The operations of stream `k` of that connection since then. */
  function OpsSince(w: nat, c: nat, k: nat, evs: seq<Event>): seq<Op> {
    if evs == [] then []
    else
      var before, ev := evs[..|evs| - 1], evs[|evs| - 1];
      if !(ev.Task? && ev.w == w && ev.c == c) then OpsSince(w, c, k, before)
      else
        match ev.step
        case StreamOp(j, op) => OpsSince(w, c, k, before) + (if j == k then [op] else [])
        case _ => []
  }

  /** The last step of the recorder of worker `w`. */
  function LastRecorded(w: nat, evs: seq<Event>): Option<Event> {
    if evs == [] then None
    else
      var ev := evs[|evs| - 1];
      if (ev.Swap? || ev.RecorderTest?) && ev.w == w then Some(ev) else LastRecorded(w, evs[..|evs| - 1])
  }

  predicate FlagSet(evs: seq<Event>) {
    SetStop in evs
  }

  // ---- connections --------------------------------------------------------

  /** The place of a connection, and its streams, against what the trace says. */
  ghost predicate PlaceIs(p: Plan, conn: Connection, w: nat, c: nat, evs: seq<Event>) {
    match LastMove(w, c, evs)
    case None => conn == if p.cfg.proto.Http3? then Resolving else Outer
    case Some(Resolve(ok)) => conn == if ok then Outer else Closed
    case Some(OuterTest(stop)) => conn == if stop then Closed else Dialing
    case Some(Dial(ok)) => if ok then conn.Live? && StreamsAre(p, conn.streams, w, c, evs) else conn == Outer
    case Some(Rejoin) => conn == Outer
    case Some(StreamOp(_, _)) => false
  }

  /** Every stream has performed its own operations, from a fresh start. */
  ghost predicate StreamsAre(p: Plan, streams: seq<Stream>, w: nat, c: nat, evs: seq<Event>) {
    && |streams| == p.streams
    && forall k :: 0 <= k < p.streams ==>
         && Perform(p.cfg, OpsSince(w, c, k, evs)).Some?
         && streams[k] == Perform(p.cfg, OpsSince(w, c, k, evs)).value.st
  }

  lemma {:induction false} PlaceHolds(p: Plan, evs: seq<Event>, w: nat, c: nat)
    requires Run(p, evs).Some? && w < p.workers && c < p.perWorker
    ensures var s := Run(p, evs).value;
      w < |s.workers| && c < |s.workers[w].conns| && PlaceIs(p, s.workers[w].conns[c], w, c, evs)
  {
    if evs == [] {
    } else {
      var before, ev := evs[..|evs| - 1], evs[|evs| - 1];
      PlaceHolds(p, before, w, c);
      var s := Run(p, before).value;
      if ev.Task? && ev.w == w && ev.c == c {
        MoveHolds(p, s.workers[w].conns[c], w, c, evs);
      } else {
        NotMoved(p, s.workers[w].conns[c], w, c, evs);
      }
      hide PlaceIs, ConnNext, ConnPosting, AllSuspended;
    }
  }

  lemma NotMoved(p: Plan, conn: Connection, w: nat, c: nat, evs: seq<Event>)
    requires evs != [] && PlaceIs(p, conn, w, c, evs[..|evs| - 1])
    requires var ev := evs[|evs| - 1]; !(ev.Task? && ev.w == w && ev.c == c)
    ensures PlaceIs(p, conn, w, c, evs)
  {
    var before := evs[..|evs| - 1];
    assert LastMove(w, c, evs) == LastMove(w, c, before);
    assert forall k: nat :: OpsSince(w, c, k, evs) == OpsSince(w, c, k, before);
    hide Perform, LastMove, OpsSince;
  }

  lemma MoveHolds(p: Plan, conn: Connection, w: nat, c: nat, evs: seq<Event>)
    requires evs != [] && PlaceIs(p, conn, w, c, evs[..|evs| - 1])
    requires var ev := evs[|evs| - 1]; ev.Task? && ev.w == w && ev.c == c && ConnCan(conn, ev.step)
    ensures PlaceIs(p, ConnNext(p, conn, evs[|evs| - 1].step), w, c, evs)
  {
    var before, ev := evs[..|evs| - 1], evs[|evs| - 1];
    match ev.step
    case StreamOp(k, op) =>
      assert LastMove(w, c, evs) == LastMove(w, c, before);
      hide LastMove, StreamNext, Can;
      forall j: nat
        ensures OpsSince(w, c, j, evs) == OpsSince(w, c, j, before) + (if j == k then [op] else [])
      {
      }
      hide OpsSince;
      PerformOne(p, conn.streams[k], OpsSince(w, c, k, before), op);
      forall j: nat
        ensures OpsSince(w, c, j, before) + [] == OpsSince(w, c, j, before)
      {
      }
    case Dial(ok) =>
      hide StreamNext, Can;
    case _ =>
      hide StreamNext, Can;
  }

  lemma PerformOne(p: Plan, st: Stream, ops: seq<Op>, op: Op)
    requires Perform(p.cfg, ops).Some? && st == Perform(p.cfg, ops).value.st
    ensures Perform(p.cfg, ops + [op]).Some? <==> Can(st, op)
    ensures Can(st, op) ==> Perform(p.cfg, ops + [op]).value.st == StreamNext(p.cfg, st, op)
  {
    assert (ops + [op])[..|ops|] == ops;
  }

  /** On every run the last move of a connection decides its place: it is closed by a seen
      flag or a failed resolution, it dials when the flag was not seen, it lives from a
      successful dial on, with fresh streams that have performed exactly their operations,
      and otherwise it is about to test the flag. */
  lemma PlaceOfConnection(p: Plan, evs: seq<Event>, w: nat, c: nat)
    requires Run(p, evs).Some? && w < p.workers && c < p.perWorker
    ensures var s, move := Run(p, evs).value, LastMove(w, c, evs);
      && w < |s.workers| && c < |s.workers[w].conns|
      && var conn := s.workers[w].conns[c];
      && (conn.Resolving? <==> move == None && p.cfg.proto.Http3?)
      && (conn.Closed? <==> move == Some(OuterTest(true)) || move == Some(Resolve(false)))
      && (conn.Dialing? <==> move == Some(OuterTest(false)))
      && (conn.Live? <==> move == Some(Dial(true)))
      && (conn.Outer? <==> AtOuterTest(p.cfg.proto, move))
      && (conn.Live? ==> |conn.streams| == p.streams)
      && (conn.Live? ==> forall k :: 0 <= k < p.streams ==>
            && Perform(p.cfg, OpsSince(w, c, k, evs)).Some?
            && conn.streams[k] == Perform(p.cfg, OpsSince(w, c, k, evs)).value.st)
  {
    hide Run, LastMove, OpsSince, Perform;
    PlaceHolds(p, evs, w, c);
  }

  predicate AtOuterTest(proto: Protocol, move: Option<TaskStep>) {
    || (move == None && !proto.Http3?)
    || move == Some(Resolve(true)) || move == Some(Dial(false)) || move == Some(Rejoin)
  }

  // ---- what may happen next -----------------------------------------------

  /** What a connection task may do next, read off the trace. */
  ghost predicate Follows(p: Plan, w: nat, c: nat, evs: seq<Event>, step: TaskStep) {
    var move := LastMove(w, c, evs);
    match step
    case Resolve(_) => move == None && p.cfg.proto.Http3?
    case OuterTest(stop) => AtOuterTest(p.cfg.proto, move) && (stop ==> FlagSet(evs))
    case Dial(_) => move == Some(OuterTest(false))
    case Rejoin =>
      move == Some(Dial(true)) && forall k :: 0 <= k < p.streams ==>
        Perform(p.cfg, OpsSince(w, c, k, evs)).Some? && Perform(p.cfg, OpsSince(w, c, k, evs)).value.st.Ended?
    case StreamOp(k, op) =>
      && move == Some(Dial(true)) && k < p.streams
      && Perform(p.cfg, OpsSince(w, c, k, evs) + [op]).Some?
      && (op == TestStop(true) ==> FlagSet(evs))
  }

  lemma {:induction false} FlagIsSet(p: Plan, evs: seq<Event>)
    requires Run(p, evs).Some?
    ensures Run(p, evs).value.stop <==> FlagSet(evs)
  {
    if evs == [] {
    } else {
      var before, ev := evs[..|evs| - 1], evs[|evs| - 1];
      FlagIsSet(p, before);
      assert evs == before + [ev];
    }
  }

  /** The recorder sleeps unless it has swapped the counter and not yet gone on, or ended. */
  lemma {:induction false} RecorderPlace(p: Plan, evs: seq<Event>, w: nat)
    requires Run(p, evs).Some? && w < p.workers
    ensures var s, last := Run(p, evs).value, LastRecorded(w, evs);
      && w < |s.workers|
      && (s.workers[w].recorder.Sleeping? <==> last == None || (last.value.RecorderTest? && !last.value.stop))
      && (s.workers[w].recorder.Swapped? <==> last.Some? && last.value.Swap?)
      && (s.workers[w].recorder.Finished? <==> last.Some? && last.value.RecorderTest? && last.value.stop)
  {
    if evs == [] {
    } else {
      RecorderPlace(p, evs[..|evs| - 1], w);
      hide ConnNext, ConnPosting, ConnCan, AllSuspended;
    }
  }

  lemma RunOn(p: Plan, evs: seq<Event>, ev: Event)
    requires Run(p, evs).Some?
    ensures Run(p, evs + [ev]).Some? <==> Enabled(Run(p, evs).value, ev)
  {
    assert (evs + [ev])[..|evs|] == evs;
  }

  /** The machine goes on in exactly the ways the connection loop can: a task steps while
      the recorder sleeps, and its step is one of those that follow its last move. */
  lemma StepEnabledIff(p: Plan, evs: seq<Event>, w: nat, c: nat, step: TaskStep)
    requires Run(p, evs).Some? && w < p.workers && c < p.perWorker
    ensures Run(p, evs + [Task(w, c, step)]).Some?
       <==> && (LastRecorded(w, evs) == None || LastRecorded(w, evs) == Some(RecorderTest(w, false)))
            && Follows(p, w, c, evs, step)
  {
    PlaceHolds(p, evs, w, c);
    FlagIsSet(p, evs);
    RecorderPlace(p, evs, w);
    RunOn(p, evs, Task(w, c, step));
    LastRecordedIsOf(w, evs);
    hide Run, LastMove, OpsSince, LastRecorded, FlagSet, Perform, StreamNext, Can;
    var conn := Run(p, evs).value.workers[w].conns[c];
    ConnCanIff(p, conn, w, c, evs, step);
    hide PlaceIs, Follows, ConnCan;
    MayReadIff(Run(p, evs).value.stop, w, c, step);
  }

  lemma {:induction false} LastRecordedIsOf(w: nat, evs: seq<Event>)
    ensures match LastRecorded(w, evs)
            case None => true
            case Some(ev) => (ev.Swap? || ev.RecorderTest?) && ev.w == w
  {
    if evs == [] {
    } else {
      LastRecordedIsOf(w, evs[..|evs| - 1]);
    }
  }

  predicate ReadsFlag(step: TaskStep) {
    step == OuterTest(true) || (step.StreamOp? && step.op == TestStop(true))
  }

  lemma MayReadIff(stop: bool, w: nat, c: nat, step: TaskStep)
    ensures MayRead(stop, Task(w, c, step)) <==> (ReadsFlag(step) ==> stop)
  {
  }

  lemma ConnCanIff(p: Plan, conn: Connection, w: nat, c: nat, evs: seq<Event>, step: TaskStep)
    requires PlaceIs(p, conn, w, c, evs)
    ensures Follows(p, w, c, evs, step) <==> ConnCan(conn, step) && (ReadsFlag(step) ==> FlagSet(evs))
  {
    match step
    case StreamOp(k, op) =>
      if LastMove(w, c, evs) == Some(Dial(true)) && k < p.streams {
        PerformOne(p, conn.streams[k], OpsSince(w, c, k, evs), op);
      }
      hide Perform, OpsSince, Can, StreamNext, FlagSet, LastMove;
    case Rejoin =>
      hide Perform, OpsSince, Can, StreamNext, FlagSet, LastMove;
    case _ =>
      hide Perform, OpsSince, Can, StreamNext, FlagSet, LastMove;
  }

  // ---- the recorder -------------------------------------------------------

  /** No task of the worker is in the middle of being polled: every stream of a live
      connection is at the top of its loop, awaits an answer, or has ended. */
  ghost predicate NobodyPolled(p: Plan, w: nat, evs: seq<Event>) {
    forall c: nat, k: nat :: c < p.perWorker && LastMove(w, c, evs) == Some(Dial(true)) && k < p.streams ==>
      && Perform(p.cfg, OpsSince(w, c, k, evs)).Some?
      && var st := Perform(p.cfg, OpsSince(w, c, k, evs)).value.st;
      st.Loop? || st.InFlight? || st.Ended?
  }

  lemma SuspendedIff(p: Plan, evs: seq<Event>, w: nat)
    requires Run(p, evs).Some? && w < p.workers
    ensures w < |Run(p, evs).value.workers|
    ensures AllSuspended(Run(p, evs).value.workers[w].conns) <==> NobodyPolled(p, w, evs)
  {
    hide Run, LastMove, OpsSince, Perform, Balanced;
    Conservation(p, evs, Completed, w);
    var conns := Run(p, evs).value.workers[w].conns;
    forall c: nat | c < p.perWorker
      ensures PlaceIs(p, conns[c], w, c, evs)
    {
      PlaceHolds(p, evs, w, c);
    }
    if AllSuspended(conns) {
      forall c: nat, k: nat | c < p.perWorker && LastMove(w, c, evs) == Some(Dial(true)) && k < p.streams
        ensures Perform(p.cfg, OpsSince(w, c, k, evs)).Some?
        ensures Suspended(Perform(p.cfg, OpsSince(w, c, k, evs)).value.st)
      {
        assert Suspended(conns[c].streams[k]);
      }
    } else {
      var c, k :| 0 <= c < |conns| && conns[c].Live? && 0 <= k < |conns[c].streams|
        && !Suspended(conns[c].streams[k]);
      assert PlaceIs(p, conns[c], w, c, evs);
      assert LastMove(w, c, evs) == Some(Dial(true));
    }
  }

  /** The recorder wakes up only while it sleeps and nobody is polled; after a swap it tests
      the flag, and what it reads is set only if the flag has been. */
  lemma RecorderEnabledIff(p: Plan, evs: seq<Event>, w: nat, elapsedMs: nat, stop: bool)
    requires Run(p, evs).Some? && w < p.workers
    ensures Run(p, evs + [Swap(w, elapsedMs)]).Some?
       <==> && (LastRecorded(w, evs) == None || LastRecorded(w, evs) == Some(RecorderTest(w, false)))
            && NobodyPolled(p, w, evs)
    ensures Run(p, evs + [RecorderTest(w, stop)]).Some?
       <==> LastRecorded(w, evs).Some? && LastRecorded(w, evs).value.Swap? && (stop ==> FlagSet(evs))
  {
    SuspendedIff(p, evs, w);
    FlagIsSet(p, evs);
    RecorderPlace(p, evs, w);
    RunOn(p, evs, Swap(w, elapsedMs));
    RunOn(p, evs, RecorderTest(w, stop));
    LastRecordedIsOf(w, evs);
    hide Run, NobodyPolled, AllSuspended, LastRecorded, FlagSet;
  }
}
