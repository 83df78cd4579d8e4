/** `Stats::record` run by any number of threads at once, one atomic operation
per step. Relaxed atomics are modelled by their modification orders: `mins` and
`maxs` list every value the two bounds ever had. A plain load, and a failing
compare-and-swap, may return any value that is not older than what the same
thread has already seen; a weak compare-and-swap may also fail for no reason.
Only a successful read-modify-write is sure to see the latest value. */
module ConcurrentRecord {
  import opened Words
  import opened Samples
  import opened Histograms

  /** Where a thread is inside `record(n)`; each name is the next operation. */
  datatype Pc =
    | Idle
    | AddBucket(n: nat)
    | AddCount(n: nat)
    | LoadMin(n: nat)
    | LoadMax(n: nat, curMin: nat)
    | CasMin(n: nat, m: nat, curMax: nat)
    | CasMax(n: nat, m: nat)

  /** `minSeen` and `maxSeen` index the newest value of either bound the thread has read. */
  datatype Thread = Thread(pc: Pc, minSeen: nat, maxSeen: nat)

  /** `added` is a history variable: the samples whose bucket has been incremented. */
  datatype State = State(
    data: seq<nat>, count: nat, mins: seq<nat>, maxs: seq<nat>,
    threads: seq<Thread>, added: seq<nat>)

  datatype Op =
    | Call(n: nat)
    | DoAddBucket
    | DoAddCount
    | ReadMin(at: nat)
    | ReadMax(at: nat)
    | SwapMin
    | FailMin(at: nat)
    | SwapMax
    | FailMax(at: nat)

  datatype Event = Event(i: nat, op: Op)

  function Start(limit: nat, threads: nat): State {
    State(seq(limit, _ => 0), 0, [U64_MAX], [0], seq(threads, _ => Thread(Idle, 0, 0)), [])
  }

  /** After the `min` loop: enter the `max` loop if the loaded maximum asks for it. */
  function AfterMin(n: nat, curMax: nat): Pc {
    if n > curMax then CasMax(n, curMax) else Idle
  }

  /** After both loads: the fast path, or one or both loops. */
  function AfterLoads(n: nat, curMin: nat, curMax: nat): Pc {
    if n >= curMin && n <= curMax then Idle
    else if n < curMin then CasMin(n, curMin, curMax)
    else AfterMin(n, curMax)
  }

  predicate Enabled(s: State, ev: Event) {
    && ev.i < |s.threads|
    && var t := s.threads[ev.i];
    match ev.op
    case Call(n) => t.pc.Idle?
    case DoAddBucket => t.pc.AddBucket? && t.pc.n < |s.data|
    case DoAddCount => t.pc.AddCount?
    case ReadMin(at) => t.pc.LoadMin? && t.minSeen <= at < |s.mins|
    case ReadMax(at) => t.pc.LoadMax? && t.maxSeen <= at < |s.maxs|
    case SwapMin => t.pc.CasMin? && s.mins != [] && Last(s.mins) == t.pc.m
    case FailMin(at) => t.pc.CasMin? && t.minSeen <= at < |s.mins|
    case SwapMax => t.pc.CasMax? && s.maxs != [] && Last(s.maxs) == t.pc.m
    case FailMax(at) => t.pc.CasMax? && t.maxSeen <= at < |s.maxs|
  }

  /** The thread after its step. */
  function ThreadNext(s: State, ev: Event): Thread
    requires Enabled(s, ev)
  {
    var t := s.threads[ev.i];
    match ev.op
    case Call(n) => if n >= |s.data| then t else t.(pc := AddBucket(n))
    case DoAddBucket => t.(pc := AddCount(t.pc.n))
    case DoAddCount => t.(pc := LoadMin(t.pc.n))
    case ReadMin(at) => t.(pc := LoadMax(t.pc.n, s.mins[at]), minSeen := at)
    case ReadMax(at) => t.(pc := AfterLoads(t.pc.n, t.pc.curMin, s.maxs[at]), maxSeen := at)
    case SwapMin => t.(pc := AfterMin(t.pc.n, t.pc.curMax), minSeen := |s.mins|)
    case FailMin(at) =>
      var actual := s.mins[at];
      t.(pc := if t.pc.n < actual then CasMin(t.pc.n, actual, t.pc.curMax) else AfterMin(t.pc.n, t.pc.curMax),
         minSeen := at)
    case SwapMax => t.(pc := Idle, maxSeen := |s.maxs|)
    case FailMax(at) =>
      var actual := s.maxs[at];
      t.(pc := if t.pc.n > actual then CasMax(t.pc.n, actual) else Idle, maxSeen := at)
  }

  function Next(s: State, ev: Event): State
    requires Enabled(s, ev)
  {
    var t := s.threads[ev.i];
    var moved := s.(threads := s.threads[ev.i := ThreadNext(s, ev)]);
    match ev.op
    case DoAddBucket => moved.(data := s.data[t.pc.n := Add64(s.data[t.pc.n], 1)], added := s.added + [t.pc.n])
    case DoAddCount => moved.(count := Add64(s.count, 1))
    case SwapMin => moved.(mins := s.mins + [t.pc.n])
    case SwapMax => moved.(maxs := s.maxs + [t.pc.n])
    case _ => moved
  }

  /** `None` if some event is not possible where it occurs. */
  function Run(s: State, evs: seq<Event>): Option<State> {
    if evs == [] then Some(s)
    else
      match Run(s, evs[..|evs| - 1])
      case None => None
      case Some(s') => if Enabled(s', evs[|evs| - 1]) then Some(Next(s', evs[|evs| - 1])) else None
  }

  /** The arguments `record` was called with. */
  function Calls(evs: seq<Event>): seq<nat> {
    if evs == [] then []
    else
      var ev := evs[|evs| - 1];
      Calls(evs[..|evs| - 1]) + (if ev.op.Call? then [ev.op.n] else [])
  }

  function Snapshot(s: State): Histogram
    requires s.mins != [] && s.maxs != []
  {
    Histogram(s.data, s.count, Last(s.mins), Last(s.maxs))
  }

  // ---- counting threads ---------------------------------------------------

  /** A thread about to increment bucket `v`, or between its two increments. */
  datatype Station = Waiting(v: nat) | Between

  predicate IsAt(pc: Pc, k: Station) {
    match k
    case Waiting(v) => pc == AddBucket(v)
    case Between => pc.AddCount?
  }

  function NumAt(threads: seq<Thread>, k: Station): nat {
    if threads == [] then 0
    else NumAt(threads[..|threads| - 1], k) + (if IsAt(threads[|threads| - 1].pc, k) then 1 else 0)
  }

  lemma {:induction false} NumAtUpdate(threads: seq<Thread>, i: nat, t: Thread, k: Station)
    requires i < |threads|
    ensures NumAt(threads[i := t], k) + (if IsAt(threads[i].pc, k) then 1 else 0)
         == NumAt(threads, k) + (if IsAt(t.pc, k) then 1 else 0)
  {
    var n := |threads| - 1;
    if i < n {
      NumAtUpdate(threads[..n], i, t, k);
      assert threads[i := t][..n] == threads[..n][i := t];
    } else {
      assert threads[i := t][..n] == threads[..n];
    }
  }

  lemma {:induction false} NumAtNone(threads: seq<Thread>, k: Station)
    requires forall i :: 0 <= i < |threads| ==> !IsAt(threads[i].pc, k)
    ensures NumAt(threads, k) == 0
  {
    if threads == [] {
    } else {
      NumAtNone(threads[..|threads| - 1], k);
    }
  }

  // ---- the invariant ------------------------------------------------------

  /** Buckets count what was added, and the total lags by the threads in between. */
  ghost predicate CountersOk(s: State) {
    && 0 < |s.data| <= MAX_BUCKETS
    && (forall x :: x in s.added ==> x < |s.data|)
    && (forall v :: 0 <= v < |s.data| ==> s.data[v] == Wrap(Count(s.added, v)))
    && NumAt(s.threads, Between) <= |s.added|
    && s.count == Wrap(|s.added| - NumAt(s.threads, Between))
  }

  /** `min` only falls and `max` only rises, always to recorded samples. */
  ghost predicate OrdersOk(s: State) {
    && s.mins != [] && s.maxs != []
    && s.mins[0] == U64_MAX && s.maxs[0] == 0
    && (forall j, k :: 0 <= j < k < |s.mins| ==> s.mins[j] > s.mins[k])
    && (forall j, k :: 0 <= j < k < |s.maxs| ==> s.maxs[j] < s.maxs[k])
    && (forall k :: 0 < k < |s.mins| ==> s.mins[k] in s.added)
    && (forall k :: 0 < k < |s.maxs| ==> s.maxs[k] in s.added)
  }

  ghost predicate ThreadOk(s: State, t: Thread) {
    && t.minSeen < |s.mins| && t.maxSeen < |s.maxs|
    && match t.pc
       case Idle => true
       case AddBucket(n) => n < |s.data|
       case AddCount(n) => n in s.added
       case LoadMin(n) => n in s.added
       case LoadMax(n, curMin) => n in s.added && curMin == s.mins[t.minSeen]
       case CasMin(n, m, curMax) => n in s.added && n < m == s.mins[t.minSeen] && curMax == s.maxs[t.maxSeen]
       case CasMax(n, m) => n in s.added && n > m == s.maxs[t.maxSeen]
  }

  ghost predicate ThreadsOk(s: State) {
    forall i :: 0 <= i < |s.threads| ==> ThreadOk(s, s.threads[i])
  }

  /** The thread has added `x` and may still have to lower `min` to it. */
  ghost predicate OwesMin(pc: Pc, x: nat) {
    match pc
    case AddCount(n) => n == x
    case LoadMin(n) => n == x
    case LoadMax(n, curMin) => n == x && n < curMin
    case CasMin(n, m, curMax) => n == x
    case _ => false
  }

  ghost predicate OwesMax(pc: Pc, x: nat) {
    match pc
    case AddCount(n) => n == x
    case LoadMin(n) => n == x
    case LoadMax(n, curMin) => n == x
    case CasMin(n, m, curMax) => n == x && n > curMax
    case CasMax(n, m) => n == x
    case _ => false
  }

  ghost predicate MinOwed(s: State, x: nat) {
    exists i :: 0 <= i < |s.threads| && OwesMin(s.threads[i].pc, x)
  }

  ghost predicate MaxOwed(s: State, x: nat) {
    exists i :: 0 <= i < |s.threads| && OwesMax(s.threads[i].pc, x)
  }

  /** Every added sample lies in the window, unless its thread is still on its way. */
  ghost predicate WindowOk(s: State) {
    && s.mins != [] && s.maxs != []
    && (forall x :: x in s.added ==> Last(s.mins) <= x || MinOwed(s, x))
    && (forall x :: x in s.added ==> x <= Last(s.maxs) || MaxOwed(s, x))
  }

  /** What was called for is what was added plus what is about to be. */
  ghost predicate CallsOk(s: State, calls: seq<nat>) {
    forall v: nat :: Count(Accepted(calls, |s.data|), v) == Count(s.added, v) + NumAt(s.threads, Waiting(v))
  }

  ghost predicate Inv(s: State) {
    CountersOk(s) && OrdersOk(s) && ThreadsOk(s) && WindowOk(s)
  }

  /** Which steps enter and leave the two stations. */
  lemma StationsMove(s: State, ev: Event, v: nat)
    requires Enabled(s, ev)
    ensures var pc, pc' := s.threads[ev.i].pc, ThreadNext(s, ev).pc;
      && (IsAt(pc, Between) <==> ev.op.DoAddCount?)
      && (IsAt(pc', Between) <==> ev.op.DoAddBucket?)
      && (IsAt(pc, Waiting(v)) <==> ev.op.DoAddBucket? && pc.n == v)
      && (IsAt(pc', Waiting(v)) <==> ev.op.Call? && ev.op.n == v && v < |s.data|)
  {
  }

  lemma CountersKept(s: State, ev: Event)
    requires CountersOk(s) && Enabled(s, ev)
    ensures CountersOk(Next(s, ev))
  {
    forall v | 0 <= v < |s.data|
      ensures |Next(s, ev).data| == |s.data|
      ensures Next(s, ev).data[v] == Wrap(Count(Next(s, ev).added, v))
    {
      hide ThreadNext, Wrap, Add64, Count;
      BucketCounted(s, ev, v);
    }
    CountLags(s, ev);
    hide ThreadNext, NumAt, Wrap, Add64, Count;
  }

  lemma BucketCounted(s: State, ev: Event, v: nat)
    requires Enabled(s, ev) && v < |s.data| && s.data[v] == Wrap(Count(s.added, v))
    ensures |Next(s, ev).data| == |s.data| && Next(s, ev).data[v] == Wrap(Count(Next(s, ev).added, v))
  {
    WrapSum(Count(s.added, v), 1);
    hide ThreadNext, Wrap, Count;
    if ev.op.DoAddBucket? {
      AddedOne(s.added, s.threads[ev.i].pc.n);
    }
  }

  lemma CountLags(s: State, ev: Event)
    requires Enabled(s, ev)
    requires NumAt(s.threads, Between) <= |s.added| && s.count == Wrap(|s.added| - NumAt(s.threads, Between))
    ensures var s' := Next(s, ev);
      NumAt(s'.threads, Between) <= |s'.added| && s'.count == Wrap(|s'.added| - NumAt(s'.threads, Between))
  {
    NumAtUpdate(s.threads, ev.i, ThreadNext(s, ev), Between);
    StationsMove(s, ev, 0);
    WrapSum(|s.added| - NumAt(s.threads, Between), 1);
    hide ThreadNext, IsAt, NumAt, Wrap;
  }

  lemma AddedOne(added: seq<nat>, n: nat)
    ensures forall v: nat :: Count(added + [n], v) == Count(added, v) + (if n == v then 1 else 0)
  {
    assert Front(added + [n]) == added;
  }

  lemma OrdersKept(s: State, ev: Event)
    requires OrdersOk(s) && Enabled(s, ev) && ThreadOk(s, s.threads[ev.i])
    ensures OrdersOk(Next(s, ev))
  {
    hide ThreadNext, Wrap, Add64;
  }

  lemma BystanderOk(s: State, ev: Event, t: Thread)
    requires OrdersOk(s) && Enabled(s, ev) && ThreadOk(s, t)
    ensures ThreadOk(Next(s, ev), t)
  {
    hide ThreadNext, Wrap, Add64;
  }

  lemma MoverOk(s: State, ev: Event)
    requires OrdersOk(s) && Enabled(s, ev) && ThreadOk(s, s.threads[ev.i])
    ensures ThreadOk(Next(s, ev), ThreadNext(s, ev))
  {
    hide Wrap, Add64;
  }

  lemma ThreadsKept(s: State, ev: Event)
    requires OrdersOk(s) && ThreadsOk(s) && Enabled(s, ev)
    ensures ThreadsOk(Next(s, ev))
  {
    var s' := Next(s, ev);
    assert s'.threads == s.threads[ev.i := ThreadNext(s, ev)];
    hide Next, ThreadNext, ThreadOk, OrdersOk, Enabled;
    forall i | 0 <= i < |s'.threads| ensures ThreadOk(s', s'.threads[i]) {
      if i == ev.i {
        MoverOk(s, ev);
      } else {
        BystanderOk(s, ev, s.threads[i]);
      }
    }
  }

  lemma WindowKept(s: State, ev: Event)
    requires Inv(s) && Enabled(s, ev)
    ensures WindowOk(Next(s, ev))
  {
    var s' := Next(s, ev);
    forall x | x in s'.added ensures Last(s'.mins) <= x || MinOwed(s', x) {
      MinStillOwed(s, ev, x);
    }
    forall x | x in s'.added ensures x <= Last(s'.maxs) || MaxOwed(s', x) {
      MaxStillOwed(s, ev, x);
    }
  }

  /** A step settles a debt, or leaves it with the same thread. */
  lemma MinDebtMoves(s: State, ev: Event, x: nat)
    requires Enabled(s, ev) && OrdersOk(s) && ThreadOk(s, s.threads[ev.i])
    ensures Next(s, ev).mins != [] && Last(Next(s, ev).mins) <= Last(s.mins)
    ensures OwesMin(s.threads[ev.i].pc, x) ==>
      OwesMin(ThreadNext(s, ev).pc, x) || Last(Next(s, ev).mins) <= x
    ensures x in Next(s, ev).added && x !in s.added ==> OwesMin(ThreadNext(s, ev).pc, x)
  {
  }

  lemma MaxDebtMoves(s: State, ev: Event, x: nat)
    requires Enabled(s, ev) && OrdersOk(s) && ThreadOk(s, s.threads[ev.i])
    ensures Next(s, ev).maxs != [] && Last(Next(s, ev).maxs) >= Last(s.maxs)
    ensures OwesMax(s.threads[ev.i].pc, x) ==>
      OwesMax(ThreadNext(s, ev).pc, x) || Last(Next(s, ev).maxs) >= x
    ensures x in Next(s, ev).added && x !in s.added ==> OwesMax(ThreadNext(s, ev).pc, x)
  {
  }

  lemma MinStillOwed(s: State, ev: Event, x: nat)
    requires Inv(s) && Enabled(s, ev) && x in Next(s, ev).added
    ensures Last(Next(s, ev).mins) <= x || MinOwed(Next(s, ev), x)
  {
    var s' := Next(s, ev);
    assert ThreadOk(s, s.threads[ev.i]);
    assert s'.threads == s.threads[ev.i := ThreadNext(s, ev)];
    MinDebtMoves(s, ev, x);
    hide Next, ThreadNext, OwesMin, ThreadOk, Enabled, OrdersOk, CountersOk;
    if x !in s.added {
      assert OwesMin(s'.threads[ev.i].pc, x);
    } else if x < Last(s.mins) {
      var i :| 0 <= i < |s.threads| && OwesMin(s.threads[i].pc, x);
      assert OwesMin(s'.threads[i].pc, x) || Last(s'.mins) <= x;
    }
  }

  lemma MaxStillOwed(s: State, ev: Event, x: nat)
    requires Inv(s) && Enabled(s, ev) && x in Next(s, ev).added
    ensures x <= Last(Next(s, ev).maxs) || MaxOwed(Next(s, ev), x)
  {
    var s' := Next(s, ev);
    assert ThreadOk(s, s.threads[ev.i]);
    assert s'.threads == s.threads[ev.i := ThreadNext(s, ev)];
    MaxDebtMoves(s, ev, x);
    hide Next, ThreadNext, OwesMax, ThreadOk, Enabled, OrdersOk, CountersOk;
    if x !in s.added {
      assert OwesMax(s'.threads[ev.i].pc, x);
    } else if x > Last(s.maxs) {
      var i :| 0 <= i < |s.threads| && OwesMax(s.threads[i].pc, x);
      assert OwesMax(s'.threads[i].pc, x) || x <= Last(s'.maxs);
    }
  }

  /** The calls so far, after one more event. */
  function CallsAfter(calls: seq<nat>, ev: Event): seq<nat> {
    if ev.op.Call? then calls + [ev.op.n] else calls
  }

  lemma CallsKept(s: State, ev: Event, calls: seq<nat>)
    requires Enabled(s, ev) && CallsOk(s, calls)
    ensures CallsOk(Next(s, ev), CallsAfter(calls, ev))
  {
    assert |Next(s, ev).data| == |s.data|;
    forall v: nat
      ensures Count(Accepted(CallsAfter(calls, ev), |s.data|), v)
           == Count(Next(s, ev).added, v) + NumAt(Next(s, ev).threads, Waiting(v))
    {
      hide Next, Enabled;
      CallCounted(s, ev, calls, v);
    }
  }

  /** A sample is added to the calls when it starts to wait, and to the buckets when it stops. */
  lemma CallCounted(s: State, ev: Event, calls: seq<nat>, v: nat)
    requires Enabled(s, ev)
    requires Count(Accepted(calls, |s.data|), v) == Count(s.added, v) + NumAt(s.threads, Waiting(v))
    ensures Count(Accepted(CallsAfter(calls, ev), |s.data|), v)
         == Count(Next(s, ev).added, v) + NumAt(Next(s, ev).threads, Waiting(v))
  {
    var limit := |s.data|;
    NumAtUpdate(s.threads, ev.i, ThreadNext(s, ev), Waiting(v));
    StationsMove(s, ev, v);
    hide ThreadNext, IsAt, NumAt, Accepted, Count, Wrap, Add64;
    if ev.op.Call? {
      AcceptedSnoc(calls, ev.op.n, limit, v);
    } else if ev.op.DoAddBucket? {
      AddedOne(s.added, s.threads[ev.i].pc.n);
    }
  }

  lemma AcceptedSnoc(calls: seq<nat>, n: nat, limit: nat, v: nat)
    ensures Count(Accepted(calls + [n], limit), v)
         == Count(Accepted(calls, limit), v) + (if n < limit && n == v then 1 else 0)
  {
    assert Front(calls + [n]) == calls && Last(calls + [n]) == n;
    assert Accepted(calls, limit) + [] == Accepted(calls, limit);
    hide Count;
    AddedOne(Accepted(calls, limit), n);
  }

  lemma InvKept(s: State, ev: Event)
    requires Inv(s) && Enabled(s, ev)
    ensures Inv(Next(s, ev))
  {
    CountersKept(s, ev);
    OrdersKept(s, ev);
    ThreadsKept(s, ev);
    WindowKept(s, ev);
  }

  lemma StartInv(limit: nat, threads: nat)
    requires 0 < limit <= MAX_BUCKETS
    ensures Inv(Start(limit, threads)) && CallsOk(Start(limit, threads), [])
  {
    var s := Start(limit, threads);
    NumAtNone(s.threads, Between);
    forall v: nat ensures NumAt(s.threads, Waiting(v)) == 0 {
      NumAtNone(s.threads, Waiting(v));
    }
  }

  // ---- theorems over all runs ---------------------------------------------

  /** Every reachable state satisfies the invariant. */
  lemma {:induction false} RunKeepsInv(limit: nat, threads: nat, evs: seq<Event>)
    requires 0 < limit <= MAX_BUCKETS
    requires Run(Start(limit, threads), evs).Some?
    ensures var s := Run(Start(limit, threads), evs).value;
      && Inv(s) && CallsOk(s, Calls(evs))
      && |s.threads| == threads && |s.data| == limit
  {
    if evs == [] {
      StartInv(limit, threads);
    } else {
      var before, ev := evs[..|evs| - 1], evs[|evs| - 1];
      RunKeepsInv(limit, threads, before);
      var s := Run(Start(limit, threads), before).value;
      InvKept(s, ev);
      CallsKept(s, ev, Calls(before));
      assert Calls(evs) == CallsAfter(Calls(before), ev);
    }
  }

  /** In every reachable state the buckets hold `count` samples plus one for each
      thread between its two increments. */
  lemma BucketTotal(limit: nat, threads: nat, evs: seq<Event>)
    requires 0 < limit <= MAX_BUCKETS && |evs| < U64_SIZE
    requires Run(Start(limit, threads), evs).Some?
    ensures var s := Run(Start(limit, threads), evs).value;
      Held(s.data, 0, |s.data|) == s.count + NumAt(s.threads, Between)
  {
    RunKeepsInv(limit, threads, evs);
    AddedAtMost(limit, threads, evs);
    CountersTotal(Run(Start(limit, threads), evs).value);
  }

  lemma CountersTotal(s: State)
    requires CountersOk(s) && |s.added| < U64_SIZE
    ensures Held(s.data, 0, |s.data|) == s.count + NumAt(s.threads, Between)
  {
    forall v | 0 <= v < |s.data| ensures s.data[v] == Count(s.added, v) {
      CountAtMost(s.added, v);
    }
    WrapSmall(|s.added| - NumAt(s.threads, Between));
    hide Wrap;
    HeldAll(s.data, s.added);
  }

  lemma {:induction false} AddedAtMost(limit: nat, threads: nat, evs: seq<Event>)
    requires Run(Start(limit, threads), evs).Some?
    ensures |Run(Start(limit, threads), evs).value.added| <= |evs|
  {
    if evs == [] {
    } else {
      AddedAtMost(limit, threads, evs[..|evs| - 1]);
    }
  }

  /** In every reachable state a non-empty bucket lies in the window, unless some
      thread carrying that very sample has not finished its bound updates. */
  lemma NonEmptyInWindow(limit: nat, threads: nat, evs: seq<Event>, v: nat)
    requires 0 < limit <= MAX_BUCKETS && v < limit
    requires Run(Start(limit, threads), evs).Some?
    ensures var s := Run(Start(limit, threads), evs).value;
      && |s.data| == limit && s.mins != [] && s.maxs != []
      && (s.data[v] > 0 ==>
           && (Last(s.mins) <= v || MinOwed(s, v))
           && (v <= Last(s.maxs) || MaxOwed(s, v)))
  {
    var s := Run(Start(limit, threads), evs).value;
    RunKeepsInv(limit, threads, evs);
    CountMember(s.added, v);
    hide ThreadsOk, MinOwed, MaxOwed;
  }

  ghost predicate Quiescent(s: State) {
    forall i :: 0 <= i < |s.threads| ==> s.threads[i].pc.Idle?
  }

  /** Once every call has returned, whatever the interleaving, the stale loads and
      the spurious failures, the histogram is the one a single thread would have
      left by recording the same calls one after the other. */
  lemma QuiescentIsSequential(limit: nat, threads: nat, evs: seq<Event>)
    requires 0 < limit <= MAX_BUCKETS
    requires Run(Start(limit, threads), evs).Some?
    requires Quiescent(Run(Start(limit, threads), evs).value)
    ensures var s := Run(Start(limit, threads), evs).value;
      && s.mins != [] && s.maxs != []
      && Represents(Snapshot(s), Accepted(Calls(evs), limit))
      && Snapshot(s) == RecordAll(Empty(limit), Calls(evs))
  {
    var s, calls := Run(Start(limit, threads), evs).value, Calls(evs);
    var accepted := Accepted(calls, limit);
    RunKeepsInv(limit, threads, evs);
    QuiescentRepresents(s);
    forall v: nat ensures Count(s.added, v) == Count(accepted, v) {
      NumAtNone(s.threads, Waiting(v));
    }
    SameCounts(s.added, accepted);
    RepresentsReordered(Snapshot(s), s.added, accepted);
    EmptyRepresents(limit);
    RecordAllRepresents(Empty(limit), [], calls);
    assert [] + accepted == accepted;
    RepresentsUnique(Snapshot(s), RecordAll(Empty(limit), calls), accepted, accepted);
  }

  lemma QuiescentRepresents(s: State)
    requires Inv(s) && Quiescent(s)
    ensures Represents(Snapshot(s), s.added)
  {
    NumAtNone(s.threads, Between);
    assert forall x :: !MinOwed(s, x) && !MaxOwed(s, x);
    var low, high := Last(s.mins), Last(s.maxs);
    assert low in s.added || low == U64_MAX;
    if s.added == [] {
      assert |s.mins| == 1;
    } else {
      assert low <= Last(s.added) < U64_MAX by {
        assert Last(s.added) in s.added;
      }
    }
    MinOfUnique(s.added, low);
    MaxOfUnique(s.added, high);
  }

  // ---- the compare-and-swap loops end -------------------------------------

  /** Thread `i` takes no step but failing compare-and-swaps on `min`. */
  ghost predicate OnlyFailsMin(evs: seq<Event>, i: nat) {
    forall k :: 0 <= k < |evs| && evs[k].i == i ==> evs[k].op.FailMin?
  }

  ghost predicate OnlyFailsMax(evs: seq<Event>, i: nat) {
    forall k :: 0 <= k < |evs| && evs[k].i == i ==> evs[k].op.FailMax?
  }

  /** Genuine failures of thread `i`: those that return another value than expected. */
  ghost function GenuineMin(s: State, evs: seq<Event>, i: nat): nat {
    if evs == [] then 0
    else
      var before, ev := evs[..|evs| - 1], evs[|evs| - 1];
      GenuineMin(s, before, i) +
      match Run(s, before)
      case None => 0
      case Some(s') =>
        if ev.i == i < |s'.threads| && ev.op.FailMin? && s'.threads[i].pc.CasMin?
           && ev.op.at < |s'.mins| && s'.mins[ev.op.at] != s'.threads[i].pc.m
        then 1 else 0
  }

  ghost function GenuineMax(s: State, evs: seq<Event>, i: nat): nat {
    if evs == [] then 0
    else
      var before, ev := evs[..|evs| - 1], evs[|evs| - 1];
      GenuineMax(s, before, i) +
      match Run(s, before)
      case None => 0
      case Some(s') =>
        if ev.i == i < |s'.threads| && ev.op.FailMax? && s'.threads[i].pc.CasMax?
           && ev.op.at < |s'.maxs| && s'.maxs[ev.op.at] != s'.threads[i].pc.m
        then 1 else 0
  }

  /** One step, seen from thread `i` in its `min` loop. */
  lemma MinAttempt(s: State, ev: Event, i: nat)
    requires Inv(s) && Enabled(s, ev) && i < |s.threads|
    requires ev.i == i ==> ev.op.FailMin?
    ensures |Next(s, ev).threads| == |s.threads|
    ensures ev.i != i ==> Next(s, ev).threads[i] == s.threads[i]
    ensures ev.i == i ==> s.threads[i].pc.CasMin?
    ensures ev.i == i && Next(s, ev).threads[i].pc.CasMin? ==>
      && Next(s, ev).threads[i].pc.n == s.threads[i].pc.n
      && Next(s, ev).threads[i].pc.m == s.mins[ev.op.at] <= s.threads[i].pc.m
    ensures s.threads[i].pc.CasMin? ==> s.threads[i].pc.n < s.threads[i].pc.m
  {
    assert ThreadOk(s, s.threads[i]) && OrdersOk(s);
    hide *;
    MinAttemptOf(s, ev, i);
  }

  lemma MinAttemptOf(s: State, ev: Event, i: nat)
    requires OrdersOk(s) && Enabled(s, ev) && i < |s.threads| && ThreadOk(s, s.threads[i])
    requires ev.i == i ==> ev.op.FailMin?
    ensures |Next(s, ev).threads| == |s.threads|
    ensures ev.i != i ==> Next(s, ev).threads[i] == s.threads[i]
    ensures ev.i == i ==> s.threads[i].pc.CasMin?
    ensures ev.i == i && Next(s, ev).threads[i].pc.CasMin? ==>
      && Next(s, ev).threads[i].pc.n == s.threads[i].pc.n
      && Next(s, ev).threads[i].pc.m == s.mins[ev.op.at] <= s.threads[i].pc.m
    ensures s.threads[i].pc.CasMin? ==> s.threads[i].pc.n < s.threads[i].pc.m
  {
    if ev.i == i {
      MinMove(s, s.threads[i].minSeen, ev.op.at);
    }
    hide OrdersOk, Wrap, Add64, AfterLoads;
  }

  lemma MinMove(s: State, a: nat, b: nat)
    requires OrdersOk(s) && a <= b < |s.mins|
    ensures s.mins[b] <= s.mins[a]
  {
  }

  lemma MaxAttempt(s: State, ev: Event, i: nat)
    requires Inv(s) && Enabled(s, ev) && i < |s.threads|
    requires ev.i == i ==> ev.op.FailMax?
    ensures |Next(s, ev).threads| == |s.threads|
    ensures ev.i != i ==> Next(s, ev).threads[i] == s.threads[i]
    ensures ev.i == i ==> s.threads[i].pc.CasMax?
    ensures ev.i == i && Next(s, ev).threads[i].pc.CasMax? ==>
      && Next(s, ev).threads[i].pc.n == s.threads[i].pc.n
      && Next(s, ev).threads[i].pc.m == s.maxs[ev.op.at] >= s.threads[i].pc.m
    ensures s.threads[i].pc.CasMax? ==> s.threads[i].pc.n > s.threads[i].pc.m
  {
    assert ThreadOk(s, s.threads[i]) && OrdersOk(s);
    hide *;
    MaxAttemptOf(s, ev, i);
  }

  lemma MaxAttemptOf(s: State, ev: Event, i: nat)
    requires OrdersOk(s) && Enabled(s, ev) && i < |s.threads| && ThreadOk(s, s.threads[i])
    requires ev.i == i ==> ev.op.FailMax?
    ensures |Next(s, ev).threads| == |s.threads|
    ensures ev.i != i ==> Next(s, ev).threads[i] == s.threads[i]
    ensures ev.i == i ==> s.threads[i].pc.CasMax?
    ensures ev.i == i && Next(s, ev).threads[i].pc.CasMax? ==>
      && Next(s, ev).threads[i].pc.n == s.threads[i].pc.n
      && Next(s, ev).threads[i].pc.m == s.maxs[ev.op.at] >= s.threads[i].pc.m
    ensures s.threads[i].pc.CasMax? ==> s.threads[i].pc.n > s.threads[i].pc.m
  {
    if ev.i == i {
      MaxMove(s, s.threads[i].maxSeen, ev.op.at);
    }
    hide OrdersOk, Wrap, Add64, AfterLoads;
  }

  lemma MaxMove(s: State, a: nat, b: nat)
    requires OrdersOk(s) && a <= b < |s.maxs|
    ensures s.maxs[b] >= s.maxs[a]
  {
  }

  lemma InLoop(s: State, i: nat)
    requires Inv(s) && i < |s.threads|
    ensures s.threads[i].pc.CasMin? ==> s.threads[i].pc.n < s.threads[i].pc.m
    ensures s.threads[i].pc.CasMax? ==> s.threads[i].pc.n > s.threads[i].pc.m
  {
    assert ThreadOk(s, s.threads[i]);
  }

  /** While a thread is in its `min` loop, each genuine failure brings the value
      it expects at least one closer to its sample. So at most `m - n` of its
      attempts fail genuinely, however many other threads interfere, and the last
      of these already leaves the loop. */
  lemma {:induction false} MinLoopShrinks(s: State, evs: seq<Event>, i: nat)
    requires Inv(s) && i < |s.threads| && s.threads[i].pc.CasMin?
    requires Run(s, evs).Some? && OnlyFailsMin(evs, i)
    ensures var s' := Run(s, evs).value;
      && Inv(s') && i < |s'.threads|
      && (s'.threads[i].pc.CasMin? ==>
            && s'.threads[i].pc.n == s.threads[i].pc.n
            && s'.threads[i].pc.n < s'.threads[i].pc.m
            && s'.threads[i].pc.m + GenuineMin(s, evs, i) <= s.threads[i].pc.m)
      && GenuineMin(s, evs, i) <= s.threads[i].pc.m - s.threads[i].pc.n
  {
    InLoop(s, i);
    if evs == [] {
    } else {
      var before, ev := evs[..|evs| - 1], evs[|evs| - 1];
      assert OnlyFailsMin(before, i);
      MinLoopShrinks(s, before, i);
      var s' := Run(s, before).value;
      InvKept(s', ev);
      MinAttempt(s', ev, i);
      InLoop(Next(s', ev), i);
      hide Inv, Next, Enabled;
    }
  }

  lemma {:induction false} MaxLoopShrinks(s: State, evs: seq<Event>, i: nat)
    requires Inv(s) && i < |s.threads| && s.threads[i].pc.CasMax?
    requires Run(s, evs).Some? && OnlyFailsMax(evs, i)
    ensures var s' := Run(s, evs).value;
      && Inv(s') && i < |s'.threads|
      && (s'.threads[i].pc.CasMax? ==>
            && s'.threads[i].pc.n == s.threads[i].pc.n
            && s'.threads[i].pc.n > s'.threads[i].pc.m
            && s'.threads[i].pc.m >= s.threads[i].pc.m + GenuineMax(s, evs, i))
      && GenuineMax(s, evs, i) <= s.threads[i].pc.n - s.threads[i].pc.m
  {
    InLoop(s, i);
    if evs == [] {
    } else {
      var before, ev := evs[..|evs| - 1], evs[|evs| - 1];
      assert OnlyFailsMax(before, i);
      MaxLoopShrinks(s, before, i);
      var s' := Run(s, before).value;
      InvKept(s', ev);
      MaxAttempt(s', ev, i);
      InLoop(Next(s', ev), i);
      hide Inv, Next, Enabled;
    }
  }

  /** Attempts of thread `i` on a bound. */
  function Attempts(evs: seq<Event>, i: nat): nat {
    if evs == [] then 0
    else Attempts(evs[..|evs| - 1], i) + (if evs[|evs| - 1].i == i && IsAttempt(evs[|evs| - 1].op) then 1 else 0)
  }

  predicate IsAttempt(op: Op) {
    op.SwapMin? || op.FailMin? || op.SwapMax? || op.FailMax?
  }

  /** Failures of thread `i` that returned the very value it expected. */
  ghost function SpuriousMin(s: State, evs: seq<Event>, i: nat): nat {
    if evs == [] then 0
    else
      var before, ev := evs[..|evs| - 1], evs[|evs| - 1];
      SpuriousMin(s, before, i) +
      match Run(s, before)
      case None => 0
      case Some(s') =>
        if ev.i == i < |s'.threads| && ev.op.FailMin? && s'.threads[i].pc.CasMin?
           && ev.op.at < |s'.mins| && s'.mins[ev.op.at] == s'.threads[i].pc.m
        then 1 else 0
  }

  ghost function SpuriousMax(s: State, evs: seq<Event>, i: nat): nat {
    if evs == [] then 0
    else
      var before, ev := evs[..|evs| - 1], evs[|evs| - 1];
      SpuriousMax(s, before, i) +
      match Run(s, before)
      case None => 0
      case Some(s') =>
        if ev.i == i < |s'.threads| && ev.op.FailMax? && s'.threads[i].pc.CasMax?
           && ev.op.at < |s'.maxs| && s'.maxs[ev.op.at] == s'.threads[i].pc.m
        then 1 else 0
  }

  lemma {:induction false} MinFailures(s: State, evs: seq<Event>, i: nat)
    requires Run(s, evs).Some? && OnlyFailsMin(evs, i)
    ensures Attempts(evs, i) == GenuineMin(s, evs, i) + SpuriousMin(s, evs, i)
  {
    if evs == [] {
    } else {
      var before, ev := evs[..|evs| - 1], evs[|evs| - 1];
      assert OnlyFailsMin(before, i);
      MinFailures(s, before, i);
      assert Enabled(Run(s, before).value, ev);
      hide Next, ThreadNext;
    }
  }

  lemma {:induction false} MaxFailures(s: State, evs: seq<Event>, i: nat)
    requires Run(s, evs).Some? && OnlyFailsMax(evs, i)
    ensures Attempts(evs, i) == GenuineMax(s, evs, i) + SpuriousMax(s, evs, i)
  {
    if evs == [] {
    } else {
      var before, ev := evs[..|evs| - 1], evs[|evs| - 1];
      assert OnlyFailsMax(before, i);
      MaxFailures(s, before, i);
      assert Enabled(Run(s, before).value, ev);
      hide Next, ThreadNext;
    }
  }

  /** All attempts of a thread in its `min` loop: no more than the distance to its sample
      plus the spurious failures, counting the one it makes next if it is still there. */
  lemma MinAttemptsBounded(s: State, evs: seq<Event>, i: nat)
    requires Inv(s) && i < |s.threads| && s.threads[i].pc.CasMin?
    requires Run(s, evs).Some? && OnlyFailsMin(evs, i)
    ensures var s' := Run(s, evs).value;
      i < |s'.threads| &&
      Attempts(evs, i) + (if s'.threads[i].pc.CasMin? then 1 else 0)
        <= s.threads[i].pc.m - s.threads[i].pc.n + SpuriousMin(s, evs, i)
  {
    MinLoopShrinks(s, evs, i);
    MinFailures(s, evs, i);
    hide Inv, Run;
  }

  lemma MaxAttemptsBounded(s: State, evs: seq<Event>, i: nat)
    requires Inv(s) && i < |s.threads| && s.threads[i].pc.CasMax?
    requires Run(s, evs).Some? && OnlyFailsMax(evs, i)
    ensures var s' := Run(s, evs).value;
      i < |s'.threads| &&
      Attempts(evs, i) + (if s'.threads[i].pc.CasMax? then 1 else 0)
        <= s.threads[i].pc.n - s.threads[i].pc.m + SpuriousMax(s, evs, i)
  {
    MaxLoopShrinks(s, evs, i);
    MaxFailures(s, evs, i);
    hide Inv, Run;
  }

  // ---- a thread left alone ------------------------------------------------

  /** How many steps a thread that reads the newest values is from its return. */
  function StepsLeft(s: State, pc: Pc): nat {
    match pc
    case Idle => 0
    case AddBucket(_) => 8
    case AddCount(_) => 7
    case LoadMin(_) => 6
    case LoadMax(_, _) => 5
    case CasMin(_, m, _) => if s.mins != [] && Last(s.mins) == m then 3 else 4
    case CasMax(_, m) => if s.maxs != [] && Last(s.maxs) == m then 1 else 2
  }

  /** The next step of a thread that reads the newest values. */
  function NewestOp(s: State, pc: Pc): Op
    requires !pc.Idle? && s.mins != [] && s.maxs != []
  {
    match pc
    case AddBucket(_) => DoAddBucket
    case AddCount(_) => DoAddCount
    case LoadMin(_) => ReadMin(|s.mins| - 1)
    case LoadMax(_, _) => ReadMax(|s.maxs| - 1)
    case CasMin(_, m, _) => if Last(s.mins) == m then SwapMin else FailMin(|s.mins| - 1)
    case CasMax(_, m) => if Last(s.maxs) == m then SwapMax else FailMax(|s.maxs| - 1)
  }

  /** Steps of thread `i` alone, and none that starts a call. */
  ghost predicate Alone(evs: seq<Event>, i: nat) {
    forall k :: 0 <= k < |evs| ==> evs[k].i == i && !evs[k].op.Call?
  }

  lemma NewestStep(s: State, i: nat)
    requires Inv(s) && i < |s.threads| && !s.threads[i].pc.Idle?
    ensures s.mins != [] && s.maxs != []
    ensures var ev := Event(i, NewestOp(s, s.threads[i].pc));
      && Enabled(s, ev)
      && StepsLeft(Next(s, ev), ThreadNext(s, ev).pc) < StepsLeft(s, s.threads[i].pc)
  {
    assert ThreadOk(s, s.threads[i]) && OrdersOk(s);
    hide Inv, OrdersOk, StepsLeft, Next, ThreadNext;
    NewestEnabled(s, i);
    NewestCloser(s, i);
  }

  lemma NewestEnabled(s: State, i: nat)
    requires s.mins != [] && s.maxs != []
    requires i < |s.threads| && !s.threads[i].pc.Idle? && ThreadOk(s, s.threads[i])
    ensures Enabled(s, Event(i, NewestOp(s, s.threads[i].pc)))
  {
  }

  lemma NewestCloser(s: State, i: nat)
    requires s.mins != [] && s.maxs != []
    requires i < |s.threads| && !s.threads[i].pc.Idle?
    requires Enabled(s, Event(i, NewestOp(s, s.threads[i].pc)))
    ensures var ev := Event(i, NewestOp(s, s.threads[i].pc));
      StepsLeft(Next(s, ev), ThreadNext(s, ev).pc) < StepsLeft(s, s.threads[i].pc)
  {
    hide Wrap, Add64, ThreadOk;
    match s.threads[i].pc
    case CasMin(n, m, curMax) =>
    case CasMax(n, m) =>
    case _ =>
  }

  lemma {:induction false} RunConcat(s: State, a: seq<Event>, b: seq<Event>)
    requires Run(s, a).Some?
    ensures Run(s, a + b) == Run(Run(s, a).value, b)
  {
    hide Enabled, Next;
    if b == [] {
      assert a + b == a;
    } else {
      assert (a + b)[..|a + b| - 1] == a + b[..|b| - 1];
      RunConcat(s, a, b[..|b| - 1]);
    }
  }

  /** A call never depends on the others: from any reachable state, a thread that runs
      alone from now on returns within eight steps. */
  lemma {:induction false} Finishes(s: State, i: nat) returns (evs: seq<Event>)
    requires Inv(s) && i < |s.threads|
    ensures Run(s, evs).Some? && Alone(evs, i)
    ensures |evs| <= StepsLeft(s, s.threads[i].pc) <= 8
    ensures var s' := Run(s, evs).value;
      && Inv(s') && |s'.data| == |s.data| && |s'.threads| == |s.threads|
      && s'.threads[i].pc.Idle?
      && forall k :: 0 <= k < |s.threads| && k != i ==> s'.threads[k] == s.threads[k]
    decreases StepsLeft(s, s.threads[i].pc)
  {
    if s.threads[i].pc.Idle? {
      evs := [];
    } else {
      NewestStep(s, i);
      AtMostEight(s, s.threads[i].pc);
      hide *;
      var ev := Event(i, NewestOp(s, s.threads[i].pc));
      InvKept(s, ev);
      OneEvent(s, ev);
      var rest := Finishes(Next(s, ev), i);
      RunConcat(s, [ev], rest);
      evs := [ev] + rest;
      AloneToo(ev, rest, i);
    }
  }

  lemma AtMostEight(s: State, pc: Pc)
    ensures StepsLeft(s, pc) <= 8
    ensures !pc.Idle? && s.mins != [] && s.maxs != [] ==> !NewestOp(s, pc).Call?
  {
  }

  lemma AloneToo(ev: Event, rest: seq<Event>, i: nat)
    requires ev.i == i && !ev.op.Call? && Alone(rest, i)
    ensures Alone([ev] + rest, i)
  {
  }

  lemma OneEvent(s: State, ev: Event)
    requires Enabled(s, ev)
    ensures Run(s, [ev]) == Some(Next(s, ev))
    ensures Next(s, ev).threads == s.threads[ev.i := ThreadNext(s, ev)]
    ensures |Next(s, ev).data| == |s.data|
  {
    assert [ev][..0] == [];
  }
}
