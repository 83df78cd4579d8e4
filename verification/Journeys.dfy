/** The connection loops as runs of the machine: every list of dials, of streams with their
replies and of ways to interleave them is a run, and leads where the loop goes. */
module Journeys {

  import opened Accounting
  import opened Connections
  import opened Exchanges
  import opened Loops
  import opened Tasks
  import opened Words

  /** A connection run through a list of steps. */
  function ConnPerform(p: Plan, conn: Connection, steps: seq<TaskStep>): Option<Connection> {
    if steps == [] then Some(conn)
    else
      match ConnPerform(p, conn, steps[..|steps| - 1])
      case None => None
      case Some(c) => if ConnCan(c, steps[|steps| - 1]) then Some(ConnNext(p, c, steps[|steps| - 1])) else None
  }

  lemma {:induction false} ConnConcat(p: Plan, conn: Connection, a: seq<TaskStep>, b: seq<TaskStep>)
    requires ConnPerform(p, conn, a).Some?
    ensures ConnPerform(p, conn, a + b) == ConnPerform(p, ConnPerform(p, conn, a).value, b)
  {
    hide ConnCan, ConnNext;
    if b == [] {
      assert a + b == a;
    } else {
      assert (a + b)[..|a + b| - 1] == a + b[..|b| - 1];
      ConnConcat(p, conn, a, b[..|b| - 1]);
    }
  }

  lemma ConnStep(p: Plan, conn: Connection, step: TaskStep)
    requires ConnCan(conn, step)
    ensures ConnPerform(p, conn, [step]) == Some(ConnNext(p, conn, step))
  {
    assert [step][..0] == [];
  }

  // ---- one session --------------------------------------------------------

  /** The operations of stream `k` among the steps. */
  function OpsOf(k: nat, steps: seq<TaskStep>): seq<Op> {
    if steps == [] then []
    else
      var step := steps[|steps| - 1];
      OpsOf(k, steps[..|steps| - 1]) + (if step.StreamOp? && step.k == k then [step.op] else [])
  }

  ghost predicate OnlyStreams(steps: seq<TaskStep>, streams: nat) {
    forall i :: 0 <= i < |steps| ==> steps[i].StreamOp? && steps[i].k < streams
  }

  ghost predicate AllPerform(cfg: Settings, steps: seq<TaskStep>, streams: nat) {
    forall k: nat :: k < streams ==> Perform(cfg, OpsOf(k, steps)).Some?
  }

  /** The streams after performing their own operations. */
  ghost predicate HavePerformed(cfg: Settings, streams: seq<Stream>, steps: seq<TaskStep>) {
    forall k: nat :: k < |streams| ==>
      Perform(cfg, OpsOf(k, steps)).Some? && streams[k] == Perform(cfg, OpsOf(k, steps)).value.st
  }

  lemma PerformSnoc(cfg: Settings, ops: seq<Op>, op: Op)
    ensures Perform(cfg, ops + [op]).Some?
       <==> Perform(cfg, ops).Some? && Can(Perform(cfg, ops).value.st, op)
    ensures Perform(cfg, ops + [op]).Some? ==>
      Perform(cfg, ops + [op]).value.st == StreamNext(cfg, Perform(cfg, ops).value.st, op)
  {
    assert (ops + [op])[..|ops|] == ops;
  }

  /** Any interleaving: the streams of a live connection go on independently, and the steps
      are a run if and only if those of each stream are. */
  lemma {:induction false} SessionRuns(p: Plan, steps: seq<TaskStep>)
    requires OnlyStreams(steps, p.streams)
    ensures var after := ConnPerform(p, Live(seq(p.streams, _ => Loop(0))), steps);
      && (after.Some? <==> AllPerform(p.cfg, steps, p.streams))
      && (after.Some? ==> after.value.Live? && |after.value.streams| == p.streams
                          && HavePerformed(p.cfg, after.value.streams, steps))
  {
    if steps == [] {
    } else {
      var before, step := steps[..|steps| - 1], steps[|steps| - 1];
      assert steps == before + [step];
      OneStreamOp(p, before, step);
      SessionRuns(p, before);
      var after := ConnPerform(p, Live(seq(p.streams, _ => Loop(0))), before);
      hide AllPerform, HavePerformed;
      if after.Some? {
        SessionStep(p, after.value.streams, before, step);
      }
    }
  }

  lemma OneStreamOp(p: Plan, before: seq<TaskStep>, step: TaskStep)
    requires OnlyStreams(before + [step], p.streams)
    ensures OnlyStreams(before, p.streams) && step.StreamOp? && step.k < p.streams
    ensures AllPerform(p.cfg, before + [step], p.streams) ==> AllPerform(p.cfg, before, p.streams)
  {
    var steps := before + [step];
    assert steps[..|before|] == before && steps[|before|] == step;
    assert forall i :: 0 <= i < |before| ==> before[i] == steps[i];
    forall k: nat | k < p.streams && AllPerform(p.cfg, steps, p.streams)
      ensures Perform(p.cfg, OpsOf(k, before)).Some?
    {
      assert Perform(p.cfg, OpsOf(k, steps)).Some?;
      if step.k == k {
        PerformSnoc(p.cfg, OpsOf(k, before), step.op);
      } else {
        assert OpsOf(k, before) + [] == OpsOf(k, before);
      }
    }
  }

  lemma SessionStep(p: Plan, streams: seq<Stream>, before: seq<TaskStep>, step: TaskStep)
    requires |streams| == p.streams && step.StreamOp? && step.k < p.streams
    requires HavePerformed(p.cfg, streams, before) && AllPerform(p.cfg, before, p.streams)
    ensures ConnCan(Live(streams), step) <==> AllPerform(p.cfg, before + [step], p.streams)
    ensures ConnCan(Live(streams), step) ==>
      HavePerformed(p.cfg, streams[step.k := StreamNext(p.cfg, streams[step.k], step.op)], before + [step])
  {
    var steps := before + [step];
    assert steps[..|before|] == before;
    forall k: nat
      ensures OpsOf(k, steps) == if step.k == k then OpsOf(k, before) + [step.op] else OpsOf(k, before)
    {
      assert OpsOf(k, before) + [] == OpsOf(k, before);
    }
    PerformSnoc(p.cfg, OpsOf(step.k, before), step.op);
    hide Perform, OpsOf, Can, StreamNext;
    if Can(streams[step.k], step.op) {
      assert AllPerform(p.cfg, steps, p.streams);
    } else {
      assert Perform(p.cfg, OpsOf(step.k, steps)).None?;
    }
  }

  // ---- whole journeys -----------------------------------------------------

  /** A dial fails, or starts a session: one list of turns for each stream, interleaved. */
  datatype Dialled = DialFailed | Session(lives: seq<seq<Turn>>, steps: seq<TaskStep>)

  /** One pass through the outer loop. */
  datatype Visit = Visit(stop: bool, dial: Dialled)

  /** The steps are an interleaving of the loops of all streams. */
  ghost predicate Interleaved(p: Plan, d: Dialled) {
    d.Session? ==>
      && |d.lives| == p.streams && OnlyStreams(d.steps, p.streams)
      && forall k: nat :: k < p.streams ==> OpsOf(k, d.steps) == Script(p.cfg, d.lives[k])
  }

  ghost predicate AllLeft(cfg: Settings, lives: seq<seq<Turn>>) {
    forall k: nat :: k < |lives| ==> exists j: nat :: LeftIn(cfg, lives[k], j)
  }

  /** Where a visit leads: a seen flag closes, a failed dial and a session all of whose
      streams have been left lead back to the test, any other session stays. */
  ghost predicate LeadsTo(p: Plan, v: Visit, conn: Connection) {
    if v.stop then conn.Closed?
    else
      match v.dial
      case DialFailed => conn.Outer?
      case Session(lives, _) =>
        if AllLeft(p.cfg, lives) then conn.Outer?
        else
          && conn.Live? && |conn.streams| == |lives|
          && forall k: nat :: k < |lives| ==> conn.streams[k] == Whole(p.cfg, lives[k]).st
  }

  ghost function VisitSteps(p: Plan, v: Visit): seq<TaskStep> {
    if v.stop then [OuterTest(true)]
    else
      match v.dial
      case DialFailed => [OuterTest(false)] + [Dial(false)]
      case Session(lives, steps) =>
        ([OuterTest(false)] + [Dial(true)]) + (steps + (if AllLeft(p.cfg, lives) then [Rejoin] else []))
  }

  /** Any visit is a run from the outer test, whatever the interleaving, to where it leads. */
  lemma VisitIsARun(p: Plan, v: Visit)
    requires Interleaved(p, v.dial)
    ensures ConnPerform(p, Outer, VisitSteps(p, v)).Some?
    ensures LeadsTo(p, v, ConnPerform(p, Outer, VisitSteps(p, v)).value)
  {
    ConnStep(p, Outer, OuterTest(true));
    ConnStep(p, Outer, OuterTest(false));
    if v.stop {
    } else {
      match v.dial
      case DialFailed =>
        ConnStep(p, Dialing, Dial(false));
        ConnConcat(p, Outer, [OuterTest(false)], [Dial(false)]);
      case Session(lives, steps) =>
        ConnStep(p, Dialing, Dial(true));
        ConnConcat(p, Outer, [OuterTest(false)], [Dial(true)]);
        var tail := if AllLeft(p.cfg, lives) then [Rejoin] else [];
        ConnConcat(p, Outer, [OuterTest(false)] + [Dial(true)], steps + tail);
        SessionLeads(p, lives, steps);
    }
  }

  lemma SessionLeads(p: Plan, lives: seq<seq<Turn>>, steps: seq<TaskStep>)
    requires Interleaved(p, Session(lives, steps))
    ensures var start := Live(seq(p.streams, _ => Loop(0)));
      var tail := if AllLeft(p.cfg, lives) then [Rejoin] else [];
      && ConnPerform(p, start, steps + tail).Some?
      && LeadsTo(p, Visit(false, Session(lives, steps)), ConnPerform(p, start, steps + tail).value)
  {
    var start := Live(seq(p.streams, _ => Loop(0)));
    forall k: nat | k < p.streams
      ensures Perform(p.cfg, OpsOf(k, steps)) == Some(Whole(p.cfg, lives[k]))
      ensures Whole(p.cfg, lives[k]).st.Ended? <==> exists j: nat :: LeftIn(p.cfg, lives[k], j)
    {
      WholeIsARun(p.cfg, lives[k]);
      WholeEnds(p.cfg, lives[k]);
    }
    SessionRuns(p, steps);
    hide Perform, OpsOf, Whole, LeftIn, Script, ConnPerform;
    var after := ConnPerform(p, start, steps).value;
    assert forall k: nat :: k < p.streams ==> after.streams[k] == Whole(p.cfg, lives[k]).st;
    if AllLeft(p.cfg, lives) {
      ConnConcat(p, start, steps, [Rejoin]);
      ConnStep(p, after, Rejoin);
    } else {
      assert steps + [] == steps;
    }
  }

  /** The visits that are taken: none after one that does not lead back to the test. */
  ghost predicate Continues(p: Plan, v: Visit) {
    !v.stop && (v.dial.Session? ==> AllLeft(p.cfg, v.dial.lives))
  }

  ghost function JourneySteps(p: Plan, visits: seq<Visit>): seq<TaskStep> {
    if visits == [] then [] else JourneySteps(p, visits[..|visits| - 1]) + VisitSteps(p, visits[|visits| - 1])
  }

  /** Every journey is a run of the connection machine: if all its visits but the last lead
      back to the test, it is possible as a whole, and ends where the last one leads. */
  lemma {:induction false} JourneyIsARun(p: Plan, visits: seq<Visit>)
    requires forall i :: 0 <= i < |visits| ==> Interleaved(p, visits[i].dial)
    requires forall i :: 0 <= i < |visits| - 1 ==> Continues(p, visits[i])
    ensures ConnPerform(p, Outer, JourneySteps(p, visits)).Some?
    ensures var conn := ConnPerform(p, Outer, JourneySteps(p, visits)).value;
      if visits == [] then conn.Outer? else LeadsTo(p, visits[|visits| - 1], conn)
  {
    if visits == [] {
    } else {
      var before, v := visits[..|visits| - 1], visits[|visits| - 1];
      hide Interleaved, AllLeft, ConnPerform, VisitSteps;
      JourneyIsARun(p, before);
      assert before != [] ==> Continues(p, before[|before| - 1]);
      assert ConnPerform(p, Outer, JourneySteps(p, before)).value == Outer;
      ConnConcat(p, Outer, JourneySteps(p, before), VisitSteps(p, v));
      VisitIsARun(p, v);
    }
  }

  // ---- the HTTP/1.1 task --------------------------------------------------

  /** The operations of the only stream as steps of its connection. */
  function Single(ops: seq<Op>): seq<TaskStep> {
    if ops == [] then [] else Single(ops[..|ops| - 1]) + [StreamOp(0, ops[|ops| - 1])]
  }

  lemma {:induction false} SingleOps(ops: seq<Op>)
    ensures OpsOf(0, Single(ops)) == ops && OnlyStreams(Single(ops), 1)
  {
    if ops == [] {
    } else {
      var n := |ops| - 1;
      SingleOps(ops[..n]);
      assert Single(ops)[..|Single(ops[..n])|] == Single(ops[..n]);
      assert ops == ops[..n] + [ops[n]];
    }
  }

  /** A round of the task as a visit. */
  function VisitOf(cfg: Settings, r: Round): Visit {
    Visit(r.stop, match r.attempt
                  case NoConnection => DialFailed
                  case Connected(turns) => Session([turns], Single(Script(cfg, turns))))
  }

  /** The loop of `run_connection` is such a journey, with one stream: each round is a
      possible visit, and the next one is taken exactly when the visit leads back. */
  lemma RoundIsAVisit(p: Plan, r: Round)
    requires p.cfg.proto.Http1? && p.streams == 1
    ensures Interleaved(p, VisitOf(p.cfg, r).dial)
    ensures NextFollows(p.cfg, r) ==> Continues(p, VisitOf(p.cfg, r))
    ensures Continues(p, VisitOf(p.cfg, r)) ==>
      NextFollows(p.cfg, r) || (r.attempt.Connected? && StoppedIn(p.cfg, r.attempt.turns))
  {
    match r.attempt
    case NoConnection =>
    case Connected(turns) =>
      SingleOps(Script(p.cfg, turns));
      hide LeftIn, Broken, Script, Single, OpsOf, OnlyStreams, StoppedIn;
      OnlyLife(p.cfg, turns);
      HowLeft(p.cfg, turns);
  }

  lemma OnlyLife(cfg: Settings, turns: seq<Turn>)
    ensures AllLeft(cfg, [turns]) <==> exists j: nat :: LeftIn(cfg, turns, j)
  {
    hide LeftIn;
    assert [turns][0] == turns;
  }

  lemma HowLeft(cfg: Settings, turns: seq<Turn>)
    ensures (exists j: nat :: LeftIn(cfg, turns, j))
       <==> (exists j: nat :: Broken(cfg, turns, j)) || StoppedIn(cfg, turns)
  {
    WholeEnds(cfg, turns);
    hide Whole, StoppedIn, Reached, Ends;
    if j: nat :| LeftIn(cfg, turns, j) {
      assert turns[j].stop || Broken(cfg, turns, j);
    }
    if j: nat :| Broken(cfg, turns, j) {
      assert LeftIn(cfg, turns, j);
    }
  }
}
