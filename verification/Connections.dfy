/** Around the request loops: the HTTP/1.1 connection task, which connects again and
again until it is told to stop, and the HTTP/3 exchange, which drains one response. */
module Connections {

  import opened Words
  import opened Exchanges
  import opened Histograms
  import opened Loops
  import opened Tasks
  import Accounting
  import St = Stats

  // ---- the connection task ------------------------------------------------

  datatype Attempt = NoConnection | Connected(turns: seq<Turn>)

  /** One pass through the outer loop: the stop flag as read, then the attempt. */
  datatype Round = Round(stop: bool, attempt: Attempt)

  /** Where the task is: at the top of its outer loop, inside the inner one, or over. */
  datatype Place = Outside | Inside(st: Stream) | Over

  datatype Course = Course(place: Place, books: Books)

  const ONE_CONNECT_ERROR := BLANK.(tally := NOTHING.(errorsConnect := 1))

  function PlaceAfter(cfg: Settings, turns: seq<Turn>): Place {
    var st := Whole(cfg, turns).st;
    if !st.Ended? then Inside(st)
    else if StoppedIn(cfg, turns) then Over
    else Outside
  }

  /** The whole life of the task; rounds after its end are not taken. */
  function CourseOf(cfg: Settings, rounds: seq<Round>): Course {
    if rounds == [] then Course(Outside, BLANK)
    else
      var c, r := CourseOf(cfg, rounds[..|rounds| - 1]), rounds[|rounds| - 1];
      if c.place.Outside? then AfterRound(cfg, c.books, r) else c
  }

  /** A round that is taken. */
  function AfterRound(cfg: Settings, books: Books, r: Round): Course {
    if r.stop then Course(Over, books)
    else
      match r.attempt
      case NoConnection => Course(Outside, books.Plus(ONE_CONNECT_ERROR))
      case Connected(turns) => Course(PlaceAfter(cfg, turns), books.Plus(Whole(cfg, turns).books))
  }

  lemma {:induction false} CourseStops(cfg: Settings, rounds: seq<Round>, i: nat)
    requires i <= |rounds| && !CourseOf(cfg, rounds[..i]).place.Outside?
    ensures CourseOf(cfg, rounds) == CourseOf(cfg, rounds[..i])
  {
    if i == |rounds| {
      assert rounds[..i] == rounds;
    } else {
      var before := rounds[..|rounds| - 1];
      assert before[..i] == rounds[..i];
      CourseStops(cfg, before, i);
    }
  }

  lemma CourseStep(cfg: Settings, rounds: seq<Round>, i: nat)
    requires i < |rounds| && CourseOf(cfg, rounds[..i]).place.Outside?
    ensures var c, r, next := CourseOf(cfg, rounds[..i]), rounds[i], CourseOf(cfg, rounds[..i + 1]);
      && (r.stop ==> next == Course(Over, c.books))
      && (!r.stop && r.attempt.NoConnection? ==> next == Course(Outside, c.books.Plus(ONE_CONNECT_ERROR)))
      && (!r.stop && r.attempt.Connected? ==>
            next == Course(PlaceAfter(cfg, r.attempt.turns), c.books.Plus(Whole(cfg, r.attempt.turns).books)))
      && (!next.place.Outside? ==> CourseOf(cfg, rounds) == next)
  {
    assert rounds[..i + 1][..i] == rounds[..i];
    if !CourseOf(cfg, rounds[..i + 1]).place.Outside? {
      CourseStops(cfg, rounds, i + 1);
    }
  }

  function PlacePending(cfg: Settings, l: Ledger, place: Place): int {
    if place.Inside? then Pending(cfg, l, place.st) else 0
  }

  /** The session was left by a `break`: in some turn taken, which did not see the flag. */
  predicate Broken(cfg: Settings, turns: seq<Turn>, k: nat) {
    LeftIn(cfg, turns, k) && !turns[k].stop
  }

  /** Round `j` is taken, if there is one: no earlier round and no earlier turn taken saw
      the flag, and no earlier session is still open. */
  ghost predicate RoundReached(cfg: Settings, rounds: seq<Round>, j: nat)
    requires j <= |rounds|
  {
    forall i :: 0 <= i < j ==> NextFollows(cfg, rounds[i])
  }

  ghost predicate NextFollows(cfg: Settings, r: Round) {
    !r.stop && (r.attempt.Connected? ==> exists k: nat :: Broken(cfg, r.attempt.turns, k))
  }

  lemma RoundPrefix(cfg: Settings, rounds: seq<Round>, n: nat, j: nat)
    requires j <= n <= |rounds|
    ensures RoundReached(cfg, rounds[..n], j) <==> RoundReached(cfg, rounds, j)
  {
    assert forall i :: 0 <= i < j ==> rounds[..n][i] == rounds[i];
    hide NextFollows;
  }

  /** Where a session leaves the task, read off the replies. */
  lemma PlaceDecided(cfg: Settings, turns: seq<Turn>)
    ensures PlaceAfter(cfg, turns).Outside? <==> exists k: nat :: Broken(cfg, turns, k)
    ensures PlaceAfter(cfg, turns).Over? <==> exists k: nat :: LeftIn(cfg, turns, k) && turns[k].stop
    ensures PlaceAfter(cfg, turns).Inside? <==> forall k: nat :: !LeftIn(cfg, turns, k)
  {
    WholeEnds(cfg, turns);
    hide Whole, StoppedIn;
    forall j: nat, k: nat | LeftIn(cfg, turns, j) && LeftIn(cfg, turns, k)
      ensures j == k
    {
      LeftOnce(cfg, turns, j, k);
    }
    hide LeftIn;
    if k: nat :| LeftIn(cfg, turns, k) {
      assert turns[k].stop || Broken(cfg, turns, k);
    }
  }

  lemma LeftOnce(cfg: Settings, turns: seq<Turn>, j: nat, k: nat)
    requires LeftIn(cfg, turns, j) && LeftIn(cfg, turns, k)
    ensures j == k
  {
    hide Ends, Waits;
  }

  /** The task tests the flag again exactly when every round so far is followed by another:
      a refused connection, a failed request or a late answer is, a seen flag is not. */
  lemma {:induction false} CourseReaches(cfg: Settings, rounds: seq<Round>)
    ensures CourseOf(cfg, rounds).place.Outside? <==> RoundReached(cfg, rounds, |rounds|)
  {
    if rounds == [] {
    } else {
      var n := |rounds| - 1;
      CourseReaches(cfg, rounds[..n]);
      RoundPrefix(cfg, rounds, n, n);
      if rounds[n].attempt.Connected? {
        PlaceDecided(cfg, rounds[n].attempt.turns);
      }
      hide PlaceAfter, NextFollows;
      assert RoundReached(cfg, rounds, n + 1) <==> RoundReached(cfg, rounds, n) && NextFollows(cfg, rounds[n]);
      FollowsIs(cfg, rounds[n]);
    }
  }

  lemma FollowsIs(cfg: Settings, r: Round)
    ensures NextFollows(cfg, r)
       <==> !r.stop && (r.attempt.Connected? ==> exists k: nat :: Broken(cfg, r.attempt.turns, k))
  {
  }

  /** After a failed request or a late answer, the task connects again. */
  lemma Reconnects(cfg: Settings, rounds: seq<Round>, j: nat, k: nat)
    requires cfg.proto.Http1? && j < |rounds| && RoundReached(cfg, rounds, j) && !rounds[j].stop
    requires rounds[j].attempt.Connected? && k < |rounds[j].attempt.turns|
    requires Reached(cfg, rounds[j].attempt.turns, k) && !rounds[j].attempt.turns[k].stop
    requires var reply := rounds[j].attempt.turns[k].reply;
      || reply.SendFails? || reply.ReadFails?
      || (reply.Answered? && reply.x.elapsedNs > cfg.timeoutMs * 1_000_000)
    ensures RoundReached(cfg, rounds, j + 1)
    ensures CourseOf(cfg, rounds[..j + 1]).place.Outside?
  {
    assert Broken(cfg, rounds[j].attempt.turns, k);
    RoundPrefix(cfg, rounds, j + 1, j + 1);
    CourseReaches(cfg, rounds[..j + 1]);
  }

  /** What the rounds taken mean for a ledger, read off the rounds and replies alone. */
  ghost function RoundEntries(cfg: Settings, l: Ledger, rounds: seq<Round>): int {
    if rounds == [] then 0
    else
      var n := |rounds| - 1;
      RoundEntries(cfg, l, rounds[..n]) + (if RoundReached(cfg, rounds, n) then RoundEntry(cfg, l, rounds[n]) else 0)
  }

  function RoundEntry(cfg: Settings, l: Ledger, r: Round): int {
    if r.stop then 0
    else
      match r.attempt
      case NoConnection => One(l.ConnectErrors?)
      case Connected(turns) => TurnsEntries(cfg, l, turns)
  }

  lemma RoundBalances(cfg: Settings, l: Ledger, books: Books, r: Round)
    requires cfg.limit <= U64_MAX
    ensures var c := AfterRound(cfg, books, r);
      Posted(l, c.books) + PlacePending(cfg, l, c.place) == Posted(l, books) + RoundEntry(cfg, l, r)
  {
    Accounting.BlankPosted(l);
    hide Posted, Whole, TurnsEntries, StoppedIn;
    if r.stop {
    } else {
      match r.attempt
      case NoConnection => PostedPlus(l, books, ONE_CONNECT_ERROR);
      case Connected(turns) =>
        PostedPlus(l, books, Whole(cfg, turns).books);
        WholeComesTo(cfg, l, turns);
        NothingAfterEnd(cfg, l, Whole(cfg, turns).st);
        hide Pending;
    }
  }

  lemma NothingAfterEnd(cfg: Settings, l: Ledger, st: Stream)
    ensures st.Ended? ==> Pending(cfg, l, st) == 0
  {
  }

  /** Conservation over all connections a task ever makes: every local count is posted
      exactly once on every way out, and only the one in use when the task is dropped
      can be missing. */
  lemma {:induction false} CourseBalances(cfg: Settings, l: Ledger, rounds: seq<Round>)
    requires cfg.limit <= U64_MAX
    ensures var c := CourseOf(cfg, rounds);
      Posted(l, c.books) + PlacePending(cfg, l, c.place) == RoundEntries(cfg, l, rounds)
  {
    if rounds == [] {
      Accounting.BlankPosted(l);
    } else {
      var n := |rounds| - 1;
      CourseBalances(cfg, l, rounds[..n]);
      CourseReaches(cfg, rounds[..n]);
      RoundPrefix(cfg, rounds, n, n);
      RoundBalances(cfg, l, CourseOf(cfg, rounds[..n]).books, rounds[n]);
      hide RoundReached, Posted, PlacePending, AfterRound, RoundEntry;
    }
  }

  /** Moving on twice is moving on by both books. */
  lemma AtTwice(counters: Counters, latency: St.Stats, o: Origin, b: Books, mid: Origin, c: Books)
    requires mid == Origin(o.tally.Plus(b.tally), o.rate + b.started, RecordAll(o.histogram, b.recorded))
    requires At(counters, latency, mid, c)
    ensures At(counters, latency, o, b.Plus(c))
  {
    RecordAllConcat(o.histogram, b.recorded, c.recorded);
  }

  lemma AtIs(counters: Counters, latency: St.Stats, o: Origin, b: Books)
    requires At(counters, latency, o, b)
    ensures latency.Valid()
    ensures Origin(counters.Snapshot(), counters.rate, latency.View())
         == Origin(o.tally.Plus(b.tally), o.rate + b.started, RecordAll(o.histogram, b.recorded))
  {
  }

  /** `run_connection`: the result is the local count lost if the task is dropped. */
  method RunConnection(cfg: Settings, rounds: seq<Round>, counters: Counters, latency: St.Stats) returns (lost: nat)
    requires cfg.proto.Http1? && latency.Valid() && latency.limit == cfg.limit
    modifies counters, latency, latency.data
    ensures At(counters, latency, old(Origin(counters.Snapshot(), counters.rate, latency.View())),
               CourseOf(cfg, rounds).books)
    ensures lost == PlacePending(cfg, Completed, CourseOf(cfg, rounds).place)
  {
    hide At;
    ghost var o, b := Origin(counters.Snapshot(), counters.rate, latency.View()), BLANK;
    AtStart(counters, latency);
    var i := 0;
    while i < |rounds| && !rounds[i].stop
      invariant i <= |rounds|
      invariant CourseOf(cfg, rounds[..i]) == Course(Outside, b)
      invariant At(counters, latency, o, b)
    {
      CourseStep(cfg, rounds, i);
      match rounds[i].attempt {
        case NoConnection =>
          CountRefusal(counters, latency, o, b);
          b := b.Plus(ONE_CONNECT_ERROR);
        case Connected(turns) =>
          AtIs(counters, latency, o, b);
          ghost var mid := Origin(counters.Snapshot(), counters.rate, latency.View());
          var inside, broken := RunHttp1Requests(cfg, turns, counters, latency);
          AtTwice(counters, latency, o, b, mid, Whole(cfg, turns).books);
          b := b.Plus(Whole(cfg, turns).books);
          if !broken {
            return inside;
          }
      }
      i := i + 1;
    }
    if i < |rounds| {
      CourseStep(cfg, rounds, i);
    } else {
      assert rounds[..i] == rounds;
    }
    return 0;
  }

  method CountRefusal(counters: Counters, latency: St.Stats, ghost o: Origin, ghost b: Books)
    requires At(counters, latency, o, b)
    modifies counters
    ensures At(counters, latency, o, b.Plus(ONE_CONNECT_ERROR))
    ensures counters.errorsConnect == old(counters.errorsConnect) + 1
  {
    counters.errorsConnect := counters.errorsConnect + 1;
    assert b.recorded + [] == b.recorded;
  }

  // ---- one HTTP/3 exchange ------------------------------------------------

  /** What the library answers: whether the request was sent and finished, whether the
      response headers came, and the chunks of the body, `None` being a failure. */
  datatype Transfer = Transfer(sent: bool, finished: bool, headers: bool, status: nat, chunks: seq<Option<nat>>)

  datatype H3Error = SendError | RecvError

  datatype H3Result = Received(status: nat, bytes: nat) | Failed(error: H3Error)

  function BodyBytes(chunks: seq<Option<nat>>): nat
    requires None !in chunks
  {
    if chunks == [] then 0 else BodyBytes(chunks[..|chunks| - 1]) + chunks[|chunks| - 1].value
  }

  /** The sum over all chunks: additive, and the chunk itself for a single one. */
  lemma {:induction false} BodyBytesAdd(a: seq<Option<nat>>, b: seq<Option<nat>>, n: nat)
    requires None !in a && None !in b
    ensures None !in a + b && BodyBytes(a + b) == BodyBytes(a) + BodyBytes(b)
    ensures BodyBytes([Some(n)]) == n && BodyBytes([]) == 0
    decreases |b|
  {
    assert BodyBytes([Some(n)][..0]) == 0;
    if b == [] {
      assert a + b == a;
    } else {
      assert (a + b)[..|a + b| - 1] == a + b[..|b| - 1];
      BodyBytesAdd(a, b[..|b| - 1], n);
    }
  }

  /** `h3_request_response` */
  method H3RequestResponse(t: Transfer) returns (r: H3Result)
    ensures r == Failed(SendError) <==> !t.sent || !t.finished
    ensures r == Failed(RecvError) <==> t.sent && t.finished && (!t.headers || None in t.chunks)
    ensures r.Received? ==> None !in t.chunks && r == Received(t.status, BodyBytes(t.chunks))
  {
    if !t.sent || !t.finished {
      return Failed(SendError);
    }
    if !t.headers {
      return Failed(RecvError);
    }
    var total := 0;
    for i := 0 to |t.chunks|
      invariant None !in t.chunks[..i]
      invariant total == BodyBytes(t.chunks[..i])
    {
      assert t.chunks[..i + 1][..i] == t.chunks[..i];
      match t.chunks[i] {
        case None =>
          assert t.chunks[i] in t.chunks;
          return Failed(RecvError);
        case Some(n) =>
          total := total + n;
      }
    }
    assert t.chunks[..|t.chunks|] == t.chunks;
    return Received(t.status, total);
  }
}
