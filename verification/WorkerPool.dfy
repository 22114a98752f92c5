/** The producer/consumer pool of metrics.collect_xprt_stats: workers take directories from a
    queue, parse them and append to a shared list; the producer waits for the queue to be
    worked off and then sends one poison pill per worker. Every schedule is considered. */
module WorkerPool {

  import opened XprtGauges

  type Dir = string

  /** The outcome of `_parse_single_xprt`: nothing to report, an exception, or a record. */
  datatype Parse = Skipped | Raised | Parsed(transport: Transport)

  datatype Item = Work(dir: Dir) | Pill

  datatype Worker =
    | Idle                             // about to call queue.get
    | Parsing(dir: Dir)
    | Appending(transport: Transport)  // about to append under the lock
    | Finishing                        // about to call task_done
    | Stopped

  datatype Producer =
    | Feeding(rest: seq<Dir>)
    | Joining
    | Stopping(left: nat)              // pills still to send
    | Returned

  datatype State = State(
    queue: seq<Item>,
    unfinished: nat,                   // the queue's count of unfinished tasks
    workers: seq<Worker>,
    results: seq<Transport>,
    producer: Producer)

  datatype Action = Produce | Step(worker: nat)

  // ---------------------------------------------------------------- steps

  function ProducerStep(s: State): State {
    match s.producer
    case Feeding(rest) =>
      if rest == [] then s.(producer := Joining)
      else s.(queue := s.queue + [Work(rest[0])], unfinished := s.unfinished + 1, producer := Feeding(rest[1..]))
    case Joining =>
      if s.unfinished == 0 then s.(producer := Stopping(|s.workers|)) else s
    case Stopping(left) =>
      if left == 0 then s.(producer := Returned)
      else s.(queue := s.queue + [Pill], unfinished := s.unfinished + 1, producer := Stopping(left - 1))
    case Returned => s
  }

  function WorkerStep(s: State, w: nat, parse: Dir -> Parse): State
    requires w < |s.workers|
  {
    match s.workers[w]
    case Idle =>
      if s.queue == [] then s
      else
        var next := if s.queue[0].Work? then Parsing(s.queue[0].dir) else Stopped;
        s.(queue := s.queue[1..], workers := s.workers[w := next])
    case Parsing(d) =>
      s.(workers := s.workers[w := if parse(d).Parsed? then Appending(parse(d).transport) else Finishing])
    case Appending(t) => s.(results := s.results + [t], workers := s.workers[w := Finishing])
    case Finishing =>
      s.(unfinished := if s.unfinished > 0 then s.unfinished - 1 else 0, workers := s.workers[w := Idle])
    case Stopped => s
  }

  function Apply(s: State, a: Action, parse: Dir -> Parse): State {
    match a
    case Produce => ProducerStep(s)
    case Step(w) => if w < |s.workers| then WorkerStep(s, w, parse) else s
  }

  function Begin(dirs: seq<Dir>, workers: nat): State {
    State([], 0, seq(workers, _ => Idle), [], Feeding(dirs))
  }

  function Run(s: State, schedule: seq<Action>, parse: Dir -> Parse): State {
    if schedule == [] then s
    else Apply(Run(s, schedule[..|schedule| - 1], parse), schedule[|schedule| - 1], parse)
  }

  // ---------------------------------------------------------------- what is still owed

  /** The non-empty, non-raising parse of each directory, once. */
  function Expected(dirs: seq<Dir>, parse: Dir -> Parse): multiset<Transport> {
    if dirs == [] then multiset{}
    else
      var first := if parse(dirs[0]).Parsed? then multiset{parse(dirs[0]).transport} else multiset{};
      first + Expected(dirs[1..], parse)
  }

  // How often a record t is still to be appended because of a directory, the queue, a worker.

  function OwedByDir(d: Dir, parse: Dir -> Parse, t: Transport): nat {
    if parse(d) == Parsed(t) then 1 else 0
  }

  function OwedByDirs(dirs: seq<Dir>, parse: Dir -> Parse, t: Transport): nat {
    if dirs == [] then 0 else OwedByDir(dirs[0], parse, t) + OwedByDirs(dirs[1..], parse, t)
  }

  function OwedByQueue(queue: seq<Item>, parse: Dir -> Parse, t: Transport): nat {
    if queue == [] then 0
    else (if queue[0].Work? then OwedByDir(queue[0].dir, parse, t) else 0) + OwedByQueue(queue[1..], parse, t)
  }

  function OwedByWorker(w: Worker, parse: Dir -> Parse, t: Transport): nat {
    match w
    case Parsing(d) => OwedByDir(d, parse, t)
    case Appending(u) => if t == u then 1 else 0
    case _ => 0
  }

  function Owing(parse: Dir -> Parse, t: Transport): Worker -> nat {
    w => OwedByWorker(w, parse, t)
  }

  function OwedByProducer(p: Producer, parse: Dir -> Parse, t: Transport): nat {
    if p.Feeding? then OwedByDirs(p.rest, parse, t) else 0
  }

  function Owed(s: State, parse: Dir -> Parse, t: Transport): nat {
    OwedByProducer(s.producer, parse, t) + OwedByQueue(s.queue, parse, t) + Count(s.workers, Owing(parse, t))
  }

  function Busy(w: Worker): nat {
    if w.Parsing? || w.Appending? || w.Finishing? then 1 else 0
  }

  function Halted(w: Worker): nat {
    if w.Stopped? then 1 else 0
  }

  function Count(ws: seq<Worker>, f: Worker -> nat): nat {
    if ws == [] then 0 else f(ws[0]) + Count(ws[1..], f)
  }

  lemma {:induction false} CountUpdate(ws: seq<Worker>, i: nat, w: Worker, f: Worker -> nat)
    requires i < |ws|
    ensures Count(ws[i := w], f) + f(ws[i]) == Count(ws, f) + f(w)
    decreases |ws|
  {
    if i == 0 {
      assert ws[i := w][1..] == ws[1..];
    } else {
      assert ws[i := w][1..] == ws[1..][i - 1 := w];
      CountUpdate(ws[1..], i - 1, w, f);
    }
  }

  lemma {:induction false} OwedAppend(queue: seq<Item>, x: Item, parse: Dir -> Parse, t: Transport)
    ensures OwedByQueue(queue + [x], parse, t) ==
            OwedByQueue(queue, parse, t) + if x.Work? then OwedByDir(x.dir, parse, t) else 0
    decreases |queue|
  {
    if queue == [] {
      assert queue + [x] == [x] && [x][1..] == [];
    } else {
      assert (queue + [x])[1..] == queue[1..] + [x];
      OwedAppend(queue[1..], x, parse, t);
    }
  }

  lemma {:induction false} ExpectedCounts(dirs: seq<Dir>, parse: Dir -> Parse, t: Transport)
    ensures Expected(dirs, parse)[t] == OwedByDirs(dirs, parse, t)
    decreases |dirs|
  {
    if dirs != [] { ExpectedCounts(dirs[1..], parse, t); }
  }

  // ---------------------------------------------------------------- invariants

  predicate Joined(p: Producer) {
    p.Stopping? || p.Returned?
  }

  /** No record is lost or duplicated: what is in the list and what is owed stay in balance. */
  ghost predicate Conserves(s: State, dirs: seq<Dir>, parse: Dir -> Parse, t: Transport) {
    multiset(s.results)[t] + Owed(s, parse, t) == OwedByDirs(dirs, parse, t)
  }

  /** The queue's count is exact. */
  ghost predicate Counts(s: State) {
    if Joined(s.producer) then
      && (forall i :: 0 <= i < |s.queue| ==> s.queue[i].Pill?)
      && Count(s.workers, Busy) == 0
      && |s.queue| + Count(s.workers, Halted) + (if s.producer.Stopping? then s.producer.left else 0) == |s.workers|
    else
      && (forall i :: 0 <= i < |s.queue| ==> s.queue[i].Work?)
      && Count(s.workers, Halted) == 0
      && s.unfinished == |s.queue| + Count(s.workers, Busy)
  }

  lemma {:induction false} BusyIsCounted(ws: seq<Worker>, w: nat)
    requires w < |ws|
    ensures Busy(ws[w]) <= Count(ws, Busy)
    decreases |ws|
  {
    if w > 0 { BusyIsCounted(ws[1..], w - 1); }
  }

  lemma StepCounts(s: State, w: nat, parse: Dir -> Parse)
    requires Counts(s) && w < |s.workers|
    ensures Counts(WorkerStep(s, w, parse))
  {
    var s' := WorkerStep(s, w, parse);
    BusyIsCounted(s.workers, w);
    CountUpdate(s.workers, w, s'.workers[w], Busy);
    CountUpdate(s.workers, w, s'.workers[w], Halted);
    assert s.workers[w := s.workers[w]] == s.workers;
    assert s'.workers == s.workers[w := s'.workers[w]];
  }

  /** A worker's step changes only what that worker owes. */
  lemma WorkerOwes(s: State, w: nat, after: Worker, parse: Dir -> Parse, t: Transport)
    requires w < |s.workers|
    ensures Count(s.workers[w := after], Owing(parse, t)) + OwedByWorker(s.workers[w], parse, t)
            == Count(s.workers, Owing(parse, t)) + OwedByWorker(after, parse, t)
  {
    var f := Owing(parse, t);
    CountUpdate(s.workers, w, after, f);
    assert f(s.workers[w]) == OwedByWorker(s.workers[w], parse, t) && f(after) == OwedByWorker(after, parse, t);
  }

  lemma TakeConserves(s: State, w: nat, dirs: seq<Dir>, parse: Dir -> Parse, t: Transport)
    requires Conserves(s, dirs, parse, t) && w < |s.workers| && s.workers[w].Idle? && s.queue != []
    ensures Conserves(WorkerStep(s, w, parse), dirs, parse, t)
  {
    var after := if s.queue[0].Work? then Parsing(s.queue[0].dir) else Stopped;
    WorkerOwes(s, w, after, parse, t);
    assert OwedByQueue(s.queue, parse, t) == OwedByWorker(after, parse, t) + OwedByQueue(s.queue[1..], parse, t);
  }

  lemma AppendConserves(s: State, w: nat, dirs: seq<Dir>, parse: Dir -> Parse, t: Transport)
    requires Conserves(s, dirs, parse, t) && w < |s.workers| && s.workers[w].Appending?
    ensures Conserves(WorkerStep(s, w, parse), dirs, parse, t)
  {
    var u := s.workers[w].transport;
    WorkerOwes(s, w, Finishing, parse, t);
    assert multiset(s.results + [u]) == multiset(s.results) + multiset{u};
  }

  lemma StepConserves(s: State, w: nat, dirs: seq<Dir>, parse: Dir -> Parse, t: Transport)
    requires Conserves(s, dirs, parse, t) && w < |s.workers|
    ensures Conserves(WorkerStep(s, w, parse), dirs, parse, t)
  {
    match s.workers[w] {
      case Idle => if s.queue != [] { TakeConserves(s, w, dirs, parse, t); }
      case Parsing(d) =>
        WorkerOwes(s, w, if parse(d).Parsed? then Appending(parse(d).transport) else Finishing, parse, t);
      case Appending(_) => AppendConserves(s, w, dirs, parse, t);
      case Finishing => WorkerOwes(s, w, Idle, parse, t);
      case Stopped =>
    }
  }

  lemma ProduceCounts(s: State)
    requires Counts(s)
    ensures Counts(ProducerStep(s))
  {
  }

  lemma ProduceConserves(s: State, dirs: seq<Dir>, parse: Dir -> Parse, t: Transport)
    requires Conserves(s, dirs, parse, t)
    ensures Conserves(ProducerStep(s), dirs, parse, t)
  {
    if s.producer.Feeding? && s.producer.rest != [] {
      OwedAppend(s.queue, Work(s.producer.rest[0]), parse, t);
    } else if s.producer.Stopping? {
      OwedAppend(s.queue, Pill, parse, t);
    }
  }

  lemma {:induction false} AllIdle(n: nat, f: Worker -> nat)
    requires f(Idle) == 0
    ensures Count(seq(n, _ => Idle), f) == 0
    decreases n
  {
    if n > 0 {
      assert seq(n, _ => Idle)[1..] == seq(n - 1, _ => Idle);
      AllIdle(n - 1, f);
    }
  }

  lemma {:induction false} RunCounts(dirs: seq<Dir>, workers: nat, schedule: seq<Action>, parse: Dir -> Parse)
    ensures var s := Run(Begin(dirs, workers), schedule, parse); Counts(s) && |s.workers| == workers
    decreases |schedule|
  {
    if schedule == [] {
      AllIdle(workers, Busy);
      AllIdle(workers, Halted);
    } else {
      RunCounts(dirs, workers, schedule[..|schedule| - 1], parse);
      var s, a := Run(Begin(dirs, workers), schedule[..|schedule| - 1], parse), schedule[|schedule| - 1];
      if a.Produce? {
        ProduceCounts(s);
      } else if a.worker < |s.workers| {
        StepCounts(s, a.worker, parse);
      }
    }
  }

  lemma {:induction false} RunConserves(
    dirs: seq<Dir>, workers: nat, schedule: seq<Action>, parse: Dir -> Parse, t: Transport)
    ensures Conserves(Run(Begin(dirs, workers), schedule, parse), dirs, parse, t)
    decreases |schedule|
  {
    if schedule == [] {
      AllIdle(workers, Owing(parse, t));
    } else {
      RunConserves(dirs, workers, schedule[..|schedule| - 1], parse, t);
      var s, a := Run(Begin(dirs, workers), schedule[..|schedule| - 1], parse), schedule[|schedule| - 1];
      if a.Produce? {
        ProduceConserves(s, dirs, parse, t);
      } else if a.worker < |s.workers| {
        StepConserves(s, a.worker, dirs, parse, t);
      }
    }
  }

  lemma {:induction false} IdleOweNothing(ws: seq<Worker>, parse: Dir -> Parse, t: Transport)
    requires Count(ws, Busy) == 0
    ensures Count(ws, Owing(parse, t)) == 0
    decreases |ws|
  {
    if ws != [] { IdleOweNothing(ws[1..], parse, t); }
  }

  lemma {:induction false} PillsOweNothing(queue: seq<Item>, parse: Dir -> Parse, t: Transport)
    requires forall i :: 0 <= i < |queue| ==> queue[i].Pill?
    ensures OwedByQueue(queue, parse, t) == 0
    decreases |queue|
  {
    if queue != [] { PillsOweNothing(queue[1..], parse, t); }
  }

  /** Under every schedule, from the moment queue.join returns the list holds exactly the
      non-empty, non-raising parse of each directory taken once. */
  lemma PoolResults(dirs: seq<Dir>, workers: nat, schedule: seq<Action>, parse: Dir -> Parse)
    requires Joined(Run(Begin(dirs, workers), schedule, parse).producer)
    ensures multiset(Run(Begin(dirs, workers), schedule, parse).results) == Expected(dirs, parse)
  {
    var s := Run(Begin(dirs, workers), schedule, parse);
    RunCounts(dirs, workers, schedule, parse);
    forall t ensures multiset(s.results)[t] == Expected(dirs, parse)[t] {
      RunConserves(dirs, workers, schedule, parse, t);
      IdleOweNothing(s.workers, parse, t);
      PillsOweNothing(s.queue, parse, t);
      ExpectedCounts(dirs, parse, t);
    }
  }

  // ---------------------------------------------------------------- totals

  function Total(ts: seq<Transport>, weight: Transport -> int): int {
    if ts == [] then 0 else weight(ts[0]) + Total(ts[1..], weight)
  }

  lemma {:induction false} TotalConcat(a: seq<Transport>, b: seq<Transport>, weight: Transport -> int)
    ensures Total(a + b, weight) == Total(a, weight) + Total(b, weight)
    decreases |a|
  {
    if a == [] {
      assert a + b == b;
    } else {
      assert (a + b)[1..] == a[1..] + b;
      TotalConcat(a[1..], b, weight);
    }
  }

  lemma TotalWithout(b: seq<Transport>, k: nat, weight: Transport -> int)
    requires k < |b|
    ensures Total(b, weight) == weight(b[k]) + Total(b[..k] + b[k + 1..], weight)
  {
    var front, one, back := b[..k], [b[k]], b[k + 1..];
    TotalConcat(front, back, weight);
    TotalConcat(front, one + back, weight);
    TotalConcat(one, back, weight);
    assert one[1..] == [] && b == front + (one + back);
  }

  lemma MultisetWithout<T>(b: seq<T>, k: nat)
    requires k < |b|
    ensures multiset(b[..k] + b[k + 1..]) == multiset(b) - multiset{b[k]}
  {
    assert b == b[..k] + [b[k]] + b[k + 1..];
  }

  lemma {:induction false} TotalOfMultiset(a: seq<Transport>, b: seq<Transport>, weight: Transport -> int)
    requires multiset(a) == multiset(b)
    ensures Total(a, weight) == Total(b, weight)
    decreases |a|
  {
    if a == [] {
      assert |multiset(b)| == 0;
    } else {
      assert a[0] in multiset(a);
      var k := Position(a[0], b);
      MultisetWithout(a, 0);
      MultisetWithout(b, k);
      assert a[..0] + a[1..] == a[1..];
      TotalOfMultiset(a[1..], b[..k] + b[k + 1..], weight);
      TotalWithout(b, k, weight);
    }
  }

  lemma Position<T>(x: T, b: seq<T>) returns (k: nat)
    requires x in multiset(b)
    ensures k < |b| && b[k] == x
  {
    k :| k < |b| && b[k] == x;
  }

  /** Every published total (a count or a sum over transports, whichever are counted) is the
      same for any two schedules and any two numbers of workers. */
  lemma TotalsIndependentOfSchedule(
    dirs: seq<Dir>, parse: Dir -> Parse, weight: Transport -> int,
    workers1: nat, schedule1: seq<Action>, workers2: nat, schedule2: seq<Action>)
    requires Joined(Run(Begin(dirs, workers1), schedule1, parse).producer)
    requires Joined(Run(Begin(dirs, workers2), schedule2, parse).producer)
    ensures Total(Run(Begin(dirs, workers1), schedule1, parse).results, weight)
         == Total(Run(Begin(dirs, workers2), schedule2, parse).results, weight)
  {
    PoolResults(dirs, workers1, schedule1, parse);
    PoolResults(dirs, workers2, schedule2, parse);
    TotalOfMultiset(Run(Begin(dirs, workers1), schedule1, parse).results,
                    Run(Begin(dirs, workers2), schedule2, parse).results, weight);
  }

  // ---------------------------------------------------------------- the pool stops

  predicate Finished(s: State) {
    s.producer.Returned? && s.queue == [] && forall i :: 0 <= i < |s.workers| ==> s.workers[i].Stopped?
  }

  function WorkerCost(w: Worker): nat {
    match w
    case Parsing(_) => 4
    case Appending(_) => 3
    case Finishing => 2
    case _ => 0
  }

  function QueueCost(queue: seq<Item>): nat {
    if queue == [] then 0 else (if queue[0].Work? then 5 else 1) + QueueCost(queue[1..])
  }

  function ProducerCost(p: Producer, workers: nat): nat {
    match p
    case Feeding(rest) => 6 * |rest| + 2 * workers + 3
    case Joining => 2 * workers + 2
    case Stopping(left) => 2 * left + 1
    case Returned => 0
  }

  /** A bound on the steps still to come. */
  function Cost(s: State): nat {
    ProducerCost(s.producer, |s.workers|) + QueueCost(s.queue) + Count(s.workers, WorkerCost)
  }

  lemma {:induction false} QueueCostAppend(queue: seq<Item>, x: Item)
    ensures QueueCost(queue + [x]) == QueueCost(queue) + if x.Work? then 5 else 1
    decreases |queue|
  {
    if queue == [] {
      assert queue + [x] == [x] && [x][1..] == [];
    } else {
      assert (queue + [x])[1..] == queue[1..] + [x];
      QueueCostAppend(queue[1..], x);
    }
  }

  /** Every step that does anything brings the end closer, so no schedule goes on for ever. */
  lemma StepsCost(s: State, a: Action, parse: Dir -> Parse)
    ensures Apply(s, a, parse) != s ==> Cost(Apply(s, a, parse)) < Cost(s)
  {
    var s' := Apply(s, a, parse);
    match a
    case Produce =>
      if s.producer.Feeding? && s.producer.rest != [] {
        QueueCostAppend(s.queue, Work(s.producer.rest[0]));
      } else if s.producer.Stopping? {
        QueueCostAppend(s.queue, Pill);
      }
    case Step(w) =>
      if w < |s.workers| {
        CountUpdate(s.workers, w, s'.workers[w], WorkerCost);
        assert s'.workers == s.workers[w := s'.workers[w]];
      }
  }

  lemma {:induction false} FindWorker(ws: seq<Worker>, f: Worker -> nat) returns (w: nat)
    requires Count(ws, f) > 0
    ensures w < |ws| && f(ws[w]) > 0
    decreases |ws|
  {
    if f(ws[0]) > 0 {
      w := 0;
    } else {
      w := FindWorker(ws[1..], f);
      w := w + 1;
    }
  }

  lemma {:induction false} FindIdle(ws: seq<Worker>) returns (w: nat)
    requires Count(ws, Busy) == 0 && Count(ws, Halted) < |ws|
    ensures w < |ws| && ws[w].Idle?
    decreases |ws|
  {
    if ws[0].Idle? {
      w := 0;
    } else {
      w := FindIdle(ws[1..]);
      w := w + 1;
    }
  }

  lemma {:induction false} AllHalted(ws: seq<Worker>)
    requires Count(ws, Halted) == |ws|
    ensures forall i :: 0 <= i < |ws| ==> ws[i].Stopped?
    decreases |ws|
  {
    HaltedAtMost(ws[..]);
    if ws != [] {
      HaltedAtMost(ws[1..]);
      AllHalted(ws[1..]);
    }
  }

  lemma {:induction false} HaltedAtMost(ws: seq<Worker>)
    ensures Count(ws, Halted) <= |ws|
    decreases |ws|
  {
    if ws != [] { HaltedAtMost(ws[1..]); }
  }

  /** With at least one worker the pool never gets stuck: until every worker has stopped, some
      action makes a step. */
  lemma PoolProgress(dirs: seq<Dir>, workers: nat, schedule: seq<Action>, parse: Dir -> Parse) returns (a: Action)
    requires workers >= 1
    requires !Finished(Run(Begin(dirs, workers), schedule, parse))
    ensures var s := Run(Begin(dirs, workers), schedule, parse); Apply(s, a, parse) != s
  {
    var s := Run(Begin(dirs, workers), schedule, parse);
    RunCounts(dirs, workers, schedule, parse);
    a := Produce;
    if s.producer.Joining? && s.unfinished > 0 {
      if Count(s.workers, Busy) > 0 {
        var w := FindWorker(s.workers, Busy);
        a := Step(w);
      } else {
        var w := FindIdle(s.workers);
        a := Step(w);
      }
    } else if s.producer.Returned? {
      HaltedAtMost(s.workers);
      if Count(s.workers, Halted) == |s.workers| {
        AllHalted(s.workers);
      } else {
        var w := FindIdle(s.workers);
        a := Step(w);
      }
    }
  }

  /** A stopped worker stays stopped, and once the producer has returned the pills still queued
      are as many as the workers still running: each takes exactly one. */
  lemma PillsMatchWorkers(dirs: seq<Dir>, workers: nat, schedule: seq<Action>, parse: Dir -> Parse)
    requires Run(Begin(dirs, workers), schedule, parse).producer.Returned?
    ensures var s := Run(Begin(dirs, workers), schedule, parse);
            && |s.workers| == workers == |s.queue| + Count(s.workers, Halted)
            && (forall i :: 0 <= i < |s.queue| ==> s.queue[i].Pill?)
            && forall w :: 0 <= w < workers && s.workers[w].Stopped? ==> Apply(s, Step(w), parse) == s
  {
    RunCounts(dirs, workers, schedule, parse);
  }

  /** Without workers the producer waits for ever on a non-empty list. */
  lemma {:induction false} NoWorkersNoResult(dirs: seq<Dir>, schedule: seq<Action>, parse: Dir -> Parse)
    requires dirs != []
    ensures !Joined(Run(Begin(dirs, 0), schedule, parse).producer)
    ensures var s := Run(Begin(dirs, 0), schedule, parse);
            && s.workers == [] && s.unfinished == |s.queue|
            && (s.producer.Feeding? ==> |s.queue| + |s.producer.rest| == |dirs|)
            && (s.producer.Joining? ==> |s.queue| == |dirs|)
    decreases |schedule|
  {
    if schedule != [] { NoWorkersNoResult(dirs, schedule[..|schedule| - 1], parse); }
  }
}
