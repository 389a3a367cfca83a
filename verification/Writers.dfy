/**
 The writer threads around the output queue, as atomic steps under its lock: producers enqueue and signal,
 writers dequeue or wait, waits may end spuriously, and the shutdown posts one pill per writer.
 */
module Writers {
  import opened Seqs
  import opened Batch

  datatype Writer = Awake | Asleep | Gone

  datatype System = System(queue: Messages, writers: seq<Writer>, posted: nat)

  /** The writer count: two processors are kept for the other threads, but one writer must exist. */
  function WritersCount(processors: int): (n: nat)
    ensures n >= 1 && (processors > 2 ==> n == processors - 2)
  {
    if processors - 2 < 1 then 1 else processors - 2
  }

  function Count(ws: seq<Writer>, w: Writer): (n: nat) {
    if ws == [] then 0 else (if ws[0] == w then 1 else 0) + Count(ws[1..], w)
  }

  function Pills(q: Messages): nat {
    |Own(q, PILL)|
  }

  // ---------------------------------------------------------------- steps

  datatype Step =
    | Produce(ms: Messages, woken: set<nat>)      // ts_enqueue or ts_enqueue_multiple, one signal
    | PostPill(pill: OutMessage, woken: set<nat>) // one turn of the loop of process_kill_threads
    | Turn(writer: nat)                           // a writer holds the lock: it dequeues or waits
    | Spurious(writer: nat)

  /** A signal wakes at least one waiting writer, if there is one, and nobody else. */
  ghost predicate Signal(ws: seq<Writer>, woken: set<nat>) {
    && (forall i :: i in woken ==> i < |ws| && ws[i] == Asleep)
    && (woken == {} ==> forall i :: 0 <= i < |ws| ==> ws[i] != Asleep)
  }

  ghost function Wake(ws: seq<Writer>, woken: set<nat>): (r: seq<Writer>)
    ensures |r| == |ws|
  {
    seq(|ws|, i requires 0 <= i < |ws| => if i in woken then Awake else ws[i])
  }

  ghost predicate Enabled(s: System, step: Step) {
    match step
    case Produce(ms, woken) => ms != [] && Pills(ms) == 0 && Signal(s.writers, woken)
    case PostPill(pill, woken) => s.posted < |s.writers| && pill.fd == PILL && Signal(s.writers, woken)
    case Turn(w) => w < |s.writers| && s.writers[w] == Awake
    case Spurious(w) => w < |s.writers| && s.writers[w] == Asleep
  }

  /** A writer's turn: it waits on an empty queue, ends after a batch with a pill, and else writes and comes back. */
  function TurnOf(s: System, w: nat, bufferSize: int): System
    requires w < |s.writers|
  {
    if s.queue == [] then s.(writers := s.writers[w := Asleep])
    else
      var (batch, left) := Pick(s.queue, 0, 0, bufferSize);
      s.(queue := left, writers := if Pills(batch) > 0 then s.writers[w := Gone] else s.writers)
  }

  ghost function Next(s: System, step: Step, bufferSize: int): System
    requires Enabled(s, step)
  {
    match step
    case Produce(ms, woken) => s.(queue := s.queue + ms, writers := Wake(s.writers, woken))
    case PostPill(pill, woken) => System(s.queue + [pill], Wake(s.writers, woken), s.posted + 1)
    case Turn(w) => TurnOf(s, w, bufferSize)
    case Spurious(w) => s.(writers := s.writers[w := Awake])
  }

  ghost function After(s: System, steps: seq<Step>, bufferSize: int): Option<System>
    decreases |steps|
  {
    if steps == [] then Some(s)
    else if !Enabled(s, steps[0]) then None
    else After(Next(s, steps[0], bufferSize), steps[1..], bufferSize)
  }

  function Start(n: nat): System {
    System([], seq(n, i => Awake), 0)
  }

  // ---------------------------------------------------------------- counting

  lemma {:induction false} CountUpdate(ws: seq<Writer>, i: nat, w: Writer, c: Writer)
    requires i < |ws|
    ensures Count(ws[i := w], c) ==
      Count(ws, c) - (if ws[i] == c then 1 else 0) + (if w == c then 1 else 0)
  {
    if i == 0 {
      assert ws[0 := w][1..] == ws[1..];
    } else {
      assert ws[i := w][1..] == ws[1..][i - 1 := w];
      CountUpdate(ws[1..], i - 1, w, c);
    }
  }

  lemma {:induction false} CountAll(ws: seq<Writer>)
    ensures Count(ws, Awake) + Count(ws, Asleep) + Count(ws, Gone) == |ws|
  {
    if ws != [] { CountAll(ws[1..]); }
  }

  lemma {:induction false} CountPositive(ws: seq<Writer>, c: Writer)
    ensures Count(ws, c) > 0 <==> exists i :: 0 <= i < |ws| && ws[i] == c
  {
    if ws != [] {
      CountPositive(ws[1..], c);
      if ws[0] != c {
        assert Count(ws, c) == Count(ws[1..], c);
        if i :| 0 <= i < |ws| && ws[i] == c { assert ws[1..][i - 1] == c; }
        if i :| 0 <= i < |ws| - 1 && ws[1..][i] == c { assert ws[i + 1] == c; }
      }
    }
  }

  /** Waking moves writers from asleep to awake only. */
  lemma {:induction false} WakeCounts(ws: seq<Writer>, woken: set<nat>)
    requires forall i :: i in woken ==> i < |ws| && ws[i] == Asleep
    ensures var r := Wake(ws, woken);
      && Count(r, Gone) == Count(ws, Gone)
      && Count(r, Awake) >= Count(ws, Awake) + (if woken == {} then 0 else 1)
      && Count(r, Awake) + Count(r, Asleep) == Count(ws, Awake) + Count(ws, Asleep)
  {
    var r := Wake(ws, woken);
    if ws == [] {
      assert forall i :: i !in woken;
      assert woken == {};
    } else {
      var later := set i | i in woken && i > 0 :: (i - 1) as nat;
      var rest := Wake(ws[1..], later);
      forall i | 0 <= i < |ws| - 1 ensures r[1..][i] == rest[i] {
        assert (i + 1 in woken) == (i in later);
      }
      assert r[1..] == rest;
      WakeCounts(ws[1..], later);
      assert forall i :: i in woken && i > 0 ==> i - 1 in later;
      assert later == {} && 0 !in woken ==> woken == {};
    }
  }

  // ---------------------------------------------------------------- the invariant

  /**
   Pills are conserved: each posted pill is queued or has ended its writer. While somebody waits, the
   awake writers outnumber the queued pills, strictly if there are messages too.
   */
  ghost predicate Inv(s: System) {
    var awake, asleep, gone, pills := Count(s.writers, Awake), Count(s.writers, Asleep), Count(s.writers, Gone), Pills(s.queue);
    && pills + gone == s.posted <= |s.writers|
    && (asleep > 0 ==> awake >= pills + (if |s.queue| > pills then 1 else 0))
  }

  lemma {:induction false} OwnIsPart(q: Messages, fd: int)
    ensures |Own(q, fd)| <= |q|
  {
    if q != [] { OwnIsPart(q[1..], fd); }
  }

  lemma {:induction false} SignalCounts(ws: seq<Writer>, woken: set<nat>)
    requires Signal(ws, woken)
    ensures var r := Wake(ws, woken);
      && Count(r, Gone) == Count(ws, Gone)
      && Count(r, Awake) >= Count(ws, Awake) + (if Count(ws, Asleep) > 0 then 1 else 0)
      && Count(r, Awake) + Count(r, Asleep) == Count(ws, Awake) + Count(ws, Asleep)
  {
    WakeCounts(ws, woken);
    CountPositive(ws, Asleep);
  }

  lemma {:induction false} BatchPills(q: Messages, bufferSize: int)
    ensures var (batch, left) := Pick(q, 0, 0, bufferSize);
      Pills(q) == Pills(batch) + Pills(left) && Pills(batch) <= 1 && |q| - Pills(q) >= |left| - Pills(left)
  {
    var (batch, left) := Pick(q, 0, 0, bufferSize);
    PickSplitsOwn(q, 0, 0, bufferSize, PILL);
    PillIsLast(q, 0, 0, bufferSize);
    AtMostOnePill(batch);
    OwnIsPart(batch, PILL);
  }

  lemma {:induction false} AtMostOnePill(batch: Messages)
    requires PillOnlyLast(batch)
    ensures Pills(batch) <= 1
  {
    if batch != [] {
      var n := |batch| - 1;
      OwnOfOthers(batch[..n], PILL);
      OwnAppend(batch[..n], [batch[n]], PILL);
      assert batch == batch[..n] + [batch[n]];
      OwnIsPart([batch[n]], PILL);
    }
  }

  lemma {:induction false} StepKeepsInv(s: System, step: Step, bufferSize: int)
    requires Inv(s) && Enabled(s, step)
    ensures Inv(Next(s, step, bufferSize)) && |Next(s, step, bufferSize).writers| == |s.writers|
  {
    CountAll(s.writers);
    OwnIsPart(s.queue, PILL);
    match step
    case Produce(ms, woken) =>
      SignalCounts(s.writers, woken);
      OwnAppend(s.queue, ms, PILL);
    case PostPill(pill, woken) =>
      SignalCounts(s.writers, woken);
      OwnAppend(s.queue, [pill], PILL);
      assert Own([pill], PILL) == [pill] + Own([], PILL);
    case Turn(w) =>
      TurnKeepsInv(s, w, bufferSize);
    case Spurious(w) =>
      CountUpdate(s.writers, w, Awake, Awake);
      CountUpdate(s.writers, w, Awake, Asleep);
      CountUpdate(s.writers, w, Awake, Gone);
  }

  lemma {:induction false} TurnKeepsInv(s: System, w: nat, bufferSize: int)
    requires Inv(s) && w < |s.writers| && s.writers[w] == Awake
    ensures Inv(TurnOf(s, w, bufferSize))
  {
    var to := if s.queue == [] then Asleep else Gone;
    CountUpdate(s.writers, w, to, Awake);
    CountUpdate(s.writers, w, to, Asleep);
    CountUpdate(s.writers, w, to, Gone);
    BatchPills(s.queue, bufferSize);
  }

  lemma {:induction false} StartInv(n: nat)
    ensures Inv(Start(n)) && Count(Start(n).writers, Awake) == n
  {
    var ws := Start(n).writers;
    CountPositive(ws, Asleep);
    CountPositive(ws, Gone);
    CountAll(ws);
  }

  lemma {:induction false} RunKeepsInv(s: System, steps: seq<Step>, bufferSize: int)
    requires Inv(s) && After(s, steps, bufferSize).Some?
    ensures var e := After(s, steps, bufferSize).value; Inv(e) && |e.writers| == |s.writers|
    decreases |steps|
  {
    if steps != [] {
      StepKeepsInv(s, steps[0], bufferSize);
      RunKeepsInv(Next(s, steps[0], bufferSize), steps[1..], bufferSize);
    }
  }

  // ---------------------------------------------------------------- what every run keeps

  /** A state that some interleaving of producers, n writers and the shutdown reaches. */
  ghost predicate Reachable(s: System, n: nat, bufferSize: int) {
    exists steps :: After(Start(n), steps, bufferSize) == Some(s)
  }

  lemma {:induction false} ReachableInv(s: System, n: nat, bufferSize: int)
    requires Reachable(s, n, bufferSize)
    ensures Inv(s) && |s.writers| == n
  {
    var steps :| After(Start(n), steps, bufferSize) == Some(s);
    StartInv(n);
    RunKeepsInv(Start(n), steps, bufferSize);
  }

  /**
   No lost wake-up: a queue that is not empty always has a writer who is not waiting, before and during the
   shutdown, until all writers have ended; queued pills never exceed the awake writers; and once every pill
   is posted nobody waits any more.
   */
  lemma {:induction false} NoLostWakeUp(s: System, n: nat, bufferSize: int)
    requires Reachable(s, n, bufferSize)
    ensures |s.writers| == n
    ensures Pills(s.queue) <= Count(s.writers, Awake)
    ensures s.queue != [] ==> Count(s.writers, Awake) > 0 || Count(s.writers, Gone) == n
    ensures s.posted == 0 && s.queue != [] && n > 0 ==> exists i :: 0 <= i < n && s.writers[i] == Awake
    ensures s.posted == n ==> Count(s.writers, Asleep) == 0
    ensures Pills(s.queue) + Count(s.writers, Gone) == s.posted
  {
    ReachableInv(s, n, bufferSize);
    CountAll(s.writers);
    CountPositive(s.writers, Awake);
    OwnIsPart(s.queue, PILL);
  }

  // ---------------------------------------------------------------- the shutdown ends

  function Added(steps: seq<Step>): nat {
    if steps == [] then 0 else (if steps[0].Produce? then |steps[0].ms| else 0) + Added(steps[1..])
  }

  function Turns(steps: seq<Step>): nat {
    if steps == [] then 0 else (if steps[0].Turn? then 1 else 0) + Turns(steps[1..])
  }

  /** Once all pills are posted nobody waits, and every turn of a writer takes something from the queue. */
  lemma {:induction false} TurnShortens(s: System, w: nat, bufferSize: int)
    requires Inv(s) && s.posted == |s.writers| && Enabled(s, Turn(w)) && bufferSize > 0
    ensures |TurnOf(s, w, bufferSize).queue| < |s.queue|
  {
    CountAll(s.writers);
    CountPositive(s.writers, Awake);
    PickTakesSome(s.queue, bufferSize);
  }

  lemma {:induction false} TurnsAreBounded(s: System, steps: seq<Step>, bufferSize: int)
    requires Inv(s) && s.posted == |s.writers| && bufferSize > 0 && After(s, steps, bufferSize).Some?
    ensures var e := After(s, steps, bufferSize).value;
      Inv(e) && e.posted == |e.writers| == |s.writers| && Turns(steps) + |e.queue| <= |s.queue| + Added(steps)
    decreases |steps|
  {
    if steps != [] {
      var step := steps[0];
      StepKeepsInv(s, step, bufferSize);
      if step.Turn? { TurnShortens(s, step.writer, bufferSize); }
      TurnsAreBounded(Next(s, step, bufferSize), steps[1..], bufferSize);
    }
  }

  /**
   The shutdown ends: once all pills are posted, the writers can take no more turns than there are
   messages left or still produced, whatever the interleaving; and a state in which no writer can
   take a turn is one where every writer has ended and no pill is left.
   */
  lemma {:induction false} ShutdownEnds(s: System, n: nat, steps: seq<Step>, bufferSize: int)
    requires Reachable(s, n, bufferSize) && s.posted == n && bufferSize > 0 && After(s, steps, bufferSize).Some?
    ensures var e := After(s, steps, bufferSize).value;
      && Turns(steps) + |e.queue| <= |s.queue| + Added(steps)
      && (Count(e.writers, Awake) == 0 ==> Count(e.writers, Gone) == n && Pills(e.queue) == 0)
  {
    ReachableInv(s, n, bufferSize);
    TurnsAreBounded(s, steps, bufferSize);
    CountAll(After(s, steps, bufferSize).value.writers);
  }

  // ---------------------------------------------------------------- what the writers take, whoever runs when

  /** What a step does to the queue: messages put behind it, or a batch taken from it. */
  function EventsOf(s: System, step: Step, bufferSize: int): seq<Event> {
    match step
    case Produce(ms, woken) => [Put(ms)]
    case PostPill(pill, woken) => [Put([pill])]
    case Turn(w) => if s.queue == [] then [] else [Take(bufferSize)]
    case Spurious(w) => []
  }

  /** Everything put on the queue and everything taken from it along a run, as Batch.Run records them. */
  ghost function Record(r: Run, s: System, steps: seq<Step>, bufferSize: int): Run
    requires After(s, steps, bufferSize).Some?
    decreases |steps|
  {
    if steps == [] then r
    else Record(Batch.After(r, EventsOf(s, steps[0], bufferSize)), Next(s, steps[0], bufferSize), steps[1..], bufferSize)
  }

  lemma {:induction false} OneEvent(r: Run, s: System, step: Step, bufferSize: int)
    requires r.queue == s.queue && Enabled(s, step)
    ensures Batch.After(r, EventsOf(s, step, bufferSize)).queue == Next(s, step, bufferSize).queue
  {
  }

  /**
   In every interleaving each connection's messages leave the queue in the order in which they were put on it, none
   lost and none twice, and the queue holds exactly those not taken yet.
   */
  lemma {:induction false} FifoInEveryRun(r: Run, s: System, steps: seq<Step>, bufferSize: int, fd: int)
    requires r.queue == s.queue && After(s, steps, bufferSize).Some?
    requires Own(r.put, fd) == Own(r.taken, fd) + Own(r.queue, fd)
    ensures var e := Record(r, s, steps, bufferSize);
      e.queue == After(s, steps, bufferSize).value.queue && Own(e.put, fd) == Own(e.taken, fd) + Own(e.queue, fd)
    decreases |steps|
  {
    if steps != [] {
      var events := EventsOf(s, steps[0], bufferSize);
      FifoPerConnection(r, events, fd);
      OneEvent(r, s, steps[0], bufferSize);
      FifoInEveryRun(Batch.After(r, events), Next(s, steps[0], bufferSize), steps[1..], bufferSize, fd);
    }
  }
}
