/** Request loops read off the replies alone: which turns a loop takes, how it ends and
what it comes to, and that the stream machine has no other runs. */
module Loops {

  import opened Exchanges
  import opened Samples
  import opened Tasks
  import opened Words

  /** The turn is the last of its loop: the flag was seen, the request failed, or the answer
      took longer than the timeout, which HTTP/3 tolerates. */
  predicate Ends(cfg: Settings, t: Turn) {
    || t.stop
    || t.reply.SendFails?
    || t.reply.ReadFails?
    || (t.reply.Answered? && t.reply.x.elapsedNs > cfg.timeoutMs * 1_000_000 && !cfg.proto.Http3?)
  }

  /** The turn never ends. */
  predicate Waits(t: Turn) {
    !t.stop && t.reply.Hangs?
  }

  /** Turn `j` is taken, if there is one: all before it end and leave the loop running. */
  predicate Reached(cfg: Settings, turns: seq<Turn>, j: nat)
    requires j <= |turns|
  {
    forall i :: 0 <= i < j ==> !Ends(cfg, turns[i]) && !Waits(turns[i])
  }

  /** The loop was left in turn `j`. */
  predicate LeftIn(cfg: Settings, turns: seq<Turn>, j: nat) {
    j < |turns| && Reached(cfg, turns, j) && Ends(cfg, turns[j])
  }

  predicate WaitsIn(cfg: Settings, turns: seq<Turn>, j: nat) {
    j < |turns| && Reached(cfg, turns, j) && Waits(turns[j])
  }

  lemma PrefixSame(cfg: Settings, turns: seq<Turn>, n: nat, j: nat)
    requires j <= n <= |turns|
    ensures Reached(cfg, turns[..n], j) <==> Reached(cfg, turns, j)
    ensures j < n ==> (LeftIn(cfg, turns[..n], j) <==> LeftIn(cfg, turns, j))
    ensures j < n ==> (WaitsIn(cfg, turns[..n], j) <==> WaitsIn(cfg, turns, j))
  {
    assert forall i :: 0 <= i < j ==> turns[..n][i] == turns[i];
  }

  /** If the last turn is taken, it alone decides. */
  lemma LastDecides(cfg: Settings, turns: seq<Turn>)
    requires turns != [] && Reached(cfg, turns, |turns| - 1)
    ensures var t := turns[|turns| - 1];
      && (Reached(cfg, turns, |turns|) <==> !Ends(cfg, t) && !Waits(t))
      && ((exists j: nat :: LeftIn(cfg, turns, j)) <==> Ends(cfg, t))
      && ((exists j: nat :: WaitsIn(cfg, turns, j)) <==> Waits(t))
      && ((exists j: nat :: LeftIn(cfg, turns, j) && turns[j].stop) <==> t.stop)
  {
    var n := |turns| - 1;
    assert turns[n].stop ==> Ends(cfg, turns[n]);
    assert Ends(cfg, turns[n]) ==> LeftIn(cfg, turns, n);
    assert Waits(turns[n]) ==> WaitsIn(cfg, turns, n);
    hide Ends, Waits;
  }

  /** If it is not, nothing depends on it. */
  lemma LastIsIdle(cfg: Settings, turns: seq<Turn>)
    requires turns != [] && !Reached(cfg, turns, |turns| - 1)
    ensures var before := turns[..|turns| - 1];
      && !Reached(cfg, turns, |turns|)
      && ((exists j: nat :: LeftIn(cfg, turns, j)) <==> (exists j: nat :: LeftIn(cfg, before, j)))
      && ((exists j: nat :: WaitsIn(cfg, turns, j)) <==> (exists j: nat :: WaitsIn(cfg, before, j)))
      && ((exists j: nat :: LeftIn(cfg, turns, j) && turns[j].stop)
          <==> (exists j: nat :: LeftIn(cfg, before, j) && before[j].stop))
  {
    var n := |turns| - 1;
    var before := turns[..n];
    hide Ends, Waits;
    forall j: nat
      ensures LeftIn(cfg, turns, j) <==> LeftIn(cfg, before, j)
      ensures WaitsIn(cfg, turns, j) <==> WaitsIn(cfg, before, j)
      ensures j < n ==> before[j] == turns[j]
    {
      if j < n {
        PrefixSame(cfg, turns, n, j);
      }
    }
  }

  /** How a loop ends: it has gone through all turns, or it was left in one, or it waits in
      one; and it saw the flag if and only if that was in the turn it was left in. */
  lemma {:induction false} WholeEnds(cfg: Settings, turns: seq<Turn>)
    ensures Whole(cfg, turns).st.Loop? <==> Reached(cfg, turns, |turns|)
    ensures Whole(cfg, turns).st.Ended? <==> exists j: nat :: LeftIn(cfg, turns, j)
    ensures Whole(cfg, turns).st.InFlight? <==> exists j: nat :: WaitsIn(cfg, turns, j)
    ensures StoppedIn(cfg, turns) <==> exists j: nat :: LeftIn(cfg, turns, j) && turns[j].stop
  {
    if turns == [] {
    } else {
      var n := |turns| - 1;
      WholeEnds(cfg, turns[..n]);
      PrefixSame(cfg, turns, n, n);
      var p := Whole(cfg, turns[..n]);
      hide Reached, LeftIn, WaitsIn;
      if p.st.Loop? {
        LastDecides(cfg, turns);
        LateIsSlow(cfg, p.st.local, turns[n]);
        hide TurnEnd, TurnBooks, Ends, Waits;
      } else {
        LastIsIdle(cfg, turns);
        hide TurnEnd, TurnBooks, Ends, Waits;
      }
    }
  }

  /** What the code decides on, and what it means. */
  lemma LateIsSlow(cfg: Settings, local: nat, t: Turn)
    ensures TurnEnd(cfg, local, t).Ended? <==> Ends(cfg, t)
    ensures TurnEnd(cfg, local, t).InFlight? <==> Waits(t)
    ensures TurnEnd(cfg, local, t).Loop? <==> !Ends(cfg, t) && !Waits(t)
  {
  }

  // ---- what the turns come to ---------------------------------------------

  /** What one turn means for a ledger. */
  function TurnEntry(cfg: Settings, l: Ledger, t: Turn): int {
    if t.stop then 0
    else
      match t.reply
      case SendFails => One(l.Requests? || l.Flights? || l.WriteErrors?)
      case ReadFails => One(l.Requests? || l.Flights? || l.ReadErrors?)
      case Hangs => One(l.Requests? || l.Flights?)
      case Answered(x) =>
        var slow := x.elapsedNs > cfg.timeoutMs * 1_000_000;
        match l
        case Completed => 1
        case Judged => 1
        case Overdue => One(slow || x.elapsedNs / 1000 >= cfg.limit)
        case Sampled(us) => One(!slow && x.elapsedNs / 1000 < cfg.limit && x.elapsedNs / 1000 == us)
        case Statuses => One(x.status >= 400)
        case Credited => if slow && cfg.proto.Http3? then 0 else x.bytes
        case Requests => 1
        case _ => 0
  }

  function TurnsEntries(cfg: Settings, l: Ledger, turns: seq<Turn>): int {
    if turns == [] then 0
    else
      var n := |turns| - 1;
      TurnsEntries(cfg, l, turns[..n]) + (if Reached(cfg, turns, n) then TurnEntry(cfg, l, turns[n]) else 0)
  }

  /** A turn posts and leaves pending exactly that. */
  lemma TurnBalances(cfg: Settings, l: Ledger, local: nat, t: Turn)
    requires cfg.limit <= U64_MAX
    ensures Posted(l, TurnBooks(cfg, local, t)) + Pending(cfg, l, TurnEnd(cfg, local, t))
         == Pending(cfg, l, Loop(local)) + TurnEntry(cfg, l, t)
  {
    if l.Sampled? {
      assert Count([], l.us) == 0;
      assert forall u: nat :: Front([u]) == [] && Count([u], l.us) == One(u == l.us);
    }
    if t.reply.Answered? {
      OverdueIs(cfg, t.reply.x);
    }
    hide Count, ElapsedUs;
  }

  /** A whole loop comes to what the turns it takes say, and to nothing else. */
  lemma {:induction false} WholeComesTo(cfg: Settings, l: Ledger, turns: seq<Turn>)
    requires cfg.limit <= U64_MAX
    ensures Posted(l, Whole(cfg, turns).books) + Pending(cfg, l, Whole(cfg, turns).st) == TurnsEntries(cfg, l, turns)
  {
    if turns == [] {
      assert l.Sampled? ==> Count([], l.us) == 0;
    } else {
      var n := |turns| - 1;
      var p := Whole(cfg, turns[..n]);
      WholeComesTo(cfg, l, turns[..n]);
      WholeEnds(cfg, turns[..n]);
      PrefixSame(cfg, turns, n, n);
      if p.st.Loop? {
        TurnBalances(cfg, l, p.st.local, turns[n]);
        hide Posted, Pending, TurnEntry, TurnBooks, TurnEnd, Reached;
        PostedPlus(l, p.books, TurnBooks(cfg, p.st.local, turns[n]));
      }
    }
  }

  // ---- the machine has no other runs --------------------------------------

  /** The rest of the turn a stream is in, while nothing new is known. */
  function TailOf(cfg: Settings, st: Stream): seq<Op> {
    match st
    case Loop(_) => []
    case Send(_) => [StartRequest]
    case InFlight(_) => []
    case Status(_, x) => [TestStatus] + ([TestTimeout] + VerdictOps(cfg, x))
    case Timeout(_, x) => [TestTimeout] + VerdictOps(cfg, x)
    case Latency(_, x) => [RecordLatency] + RecordedOps(cfg, x)
    case Refused(_, _) => [CountRefused] + CreditOps(cfg)
    case Bytes(_, _) => [AddBytes]
    case Flush(_) => [FlushLocal]
    case Ended => []
  }

  /** What is known of a stream within a turn. */
  ghost predicate InTurn(cfg: Settings, st: Stream, turns: seq<Turn>) {
    && (st.Send? || st.InFlight? ==>
          && turns != [] && turns[|turns| - 1] == Turn(false, Hangs)
          && Whole(cfg, turns[..|turns| - 1]).st.Loop?)
    && (st.Latency? ==> !Late(cfg, st.x))
    && (st.Bytes? ==> cfg.proto.Http3?)
  }

  lemma TailStep(cfg: Settings, st: Stream, op: Op)
    requires Can(st, op) && !st.Loop? && !st.InFlight?
    requires st.Latency? ==> !Late(cfg, st.x)
    ensures TailOf(cfg, st) == [op] + TailOf(cfg, StreamNext(cfg, st, op))
    ensures StreamNext(cfg, st, op).Latency? ==> !Late(cfg, StreamNext(cfg, st, op).x)
    ensures StreamNext(cfg, st, op).Bytes? ==> cfg.proto.Http3?
    ensures !StreamNext(cfg, st, op).Send?
    ensures StreamNext(cfg, st, op).InFlight? ==> st.Send?
  {
    hide ElapsedUs;
  }

  /** Every run of the stream machine is the beginning of a run of the loop. */
  lemma {:induction false} OnlyLoops(cfg: Settings, ops: seq<Op>) returns (turns: seq<Turn>)
    requires Perform(cfg, ops).Some?
    ensures ops + TailOf(cfg, Perform(cfg, ops).value.st) == Script(cfg, turns)
    ensures InTurn(cfg, Perform(cfg, ops).value.st, turns)
  {
    if ops == [] {
      turns := [];
    } else {
      var before, op := ops[..|ops| - 1], ops[|ops| - 1];
      turns := OnlyLoops(cfg, before);
      var st := Perform(cfg, before).value.st;
      assert ops == before + [op];
      if st.Loop? {
        assert before + [] == before;
        WholeIsARun(cfg, turns);
      }
      hide Perform, Script, Whole, Posting, TailOf, InTurn;
      assert Perform(cfg, ops).value.st == StreamNext(cfg, st, op) by {
        LastStep(cfg, ops);
      }
      turns := OneMoreOp(cfg, before, st, op, turns);
    }
  }

  lemma LastStep(cfg: Settings, ops: seq<Op>)
    requires ops != [] && Perform(cfg, ops).Some?
    ensures var before, op := ops[..|ops| - 1], ops[|ops| - 1];
      && Perform(cfg, before).Some? && Can(Perform(cfg, before).value.st, op)
      && Perform(cfg, ops).value.st == StreamNext(cfg, Perform(cfg, before).value.st, op)
  {
  }

  lemma OneMoreOp(cfg: Settings, before: seq<Op>, st: Stream, op: Op, turns: seq<Turn>) returns (more: seq<Turn>)
    requires Can(st, op) && before + TailOf(cfg, st) == Script(cfg, turns) && InTurn(cfg, st, turns)
    requires st.Loop? ==> Whole(cfg, turns).st.Loop?
    ensures (before + [op]) + TailOf(cfg, StreamNext(cfg, st, op)) == Script(cfg, more)
    ensures InTurn(cfg, StreamNext(cfg, st, op), more)
  {
    hide Script, Whole;
    if st.Loop? {
      assert before + [] == before;
      more := NewTurn(cfg, turns, op.stop);
    } else if st.InFlight? {
      assert before + [] == before;
      more := NewReply(cfg, turns, op);
      assert ReplyOps(cfg, more[|more| - 1].reply) == [op] + TailOf(cfg, StreamNext(cfg, st, op));
    } else {
      more := turns;
      TailStep(cfg, st, op);
    }
    hide TailOf, StreamNext, ReplyOps;
    Associates(before, [op], TailOf(cfg, StreamNext(cfg, st, op)));
  }

  lemma Associates(a: seq<Op>, b: seq<Op>, c: seq<Op>)
    ensures (a + b) + c == a + (b + c)
  {
  }

  /** One more turn of a running loop. */
  lemma ScriptSnoc(cfg: Settings, turns: seq<Turn>, t: Turn)
    requires Whole(cfg, turns).st.Loop?
    ensures Script(cfg, turns + [t]) == Script(cfg, turns) + TurnOps(cfg, t)
  {
    assert (turns + [t])[..|turns|] == turns;
    hide Whole, TurnOps;
  }

  lemma NewTurn(cfg: Settings, turns: seq<Turn>, stop: bool) returns (more: seq<Turn>)
    requires Whole(cfg, turns).st.Loop?
    ensures Script(cfg, more) == Script(cfg, turns) + ([TestStop(stop)] + [if stop then FlushLocal else StartRequest])
    ensures more != [] && more[|more| - 1] == Turn(stop, Hangs) && more[..|more| - 1] == turns
  {
    more := turns + [Turn(stop, Hangs)];
    assert more[..|turns|] == turns;
    ScriptSnoc(cfg, turns, Turn(stop, Hangs));
    hide Whole, Script;
    assert [StartRequest] + [] == [StartRequest];
  }

  function ReplyTo(op: Op): Reply {
    match op
    case WriteError => SendFails
    case ReadError => ReadFails
    case Answer(x) => Answered(x)
    case _ => Hangs
  }

  lemma NewReply(cfg: Settings, turns: seq<Turn>, op: Op) returns (more: seq<Turn>)
    requires op.WriteError? || op.ReadError? || op.Answer?
    requires turns != [] && turns[|turns| - 1] == Turn(false, Hangs)
    requires Whole(cfg, turns[..|turns| - 1]).st.Loop?
    ensures more != [] && more[|more| - 1].reply == ReplyTo(op)
    ensures Script(cfg, more) == Script(cfg, turns) + ReplyOps(cfg, ReplyTo(op))
  {
    hide *;
    var front := turns[..|turns| - 1];
    more := front + [Turn(false, ReplyTo(op))];
    assert turns == front + [Turn(false, Hangs)];
    ScriptSnoc(cfg, front, Turn(false, Hangs));
    ScriptSnoc(cfg, front, Turn(false, ReplyTo(op)));
    OpenTurn(cfg, Hangs);
    OpenTurn(cfg, ReplyTo(op));
    NoReplyYet(cfg);
    Appended(Script(cfg, front), [TestStop(false)] + [StartRequest], ReplyOps(cfg, ReplyTo(op)));
  }

  lemma NoReplyYet(cfg: Settings)
    ensures ReplyOps(cfg, Hangs) == []
  {
  }

  lemma Appended(a: seq<Op>, b: seq<Op>, c: seq<Op>)
    ensures a + (b + c) == (a + (b + [])) + c
  {
    assert b + [] == b;
  }

  lemma OpenTurn(cfg: Settings, r: Reply)
    ensures TurnOps(cfg, Turn(false, r)) == ([TestStop(false)] + [StartRequest]) + ReplyOps(cfg, r)
  {
    hide ReplyOps;
    Associates([TestStop(false)], [StartRequest], ReplyOps(cfg, r));
  }
}
