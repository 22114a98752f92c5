/** The per-destination gauges of metrics.update_xprt_metrics over the list that the workers of
    metrics.collect_xprt_stats append to: which gauges depend on the schedule. */
module XprtSchedules {
  import opened Wrappers
  import opened WorkerPool
  import opened XprtGauges

  /** What gauge g shows for destination d after an update from this list. */
  function Display(results: seq<Transport>, mounts: map<string, nat>, g: Gauge, d: string): Option<int> {
    var shown := Shown(Relevant(results, mounts), g);
    if d in shown then Some(shown[d]) else None
  }

  predicate Reports(dir: Dir, parse: Dir -> Parse, d: string) {
    parse(dir).Parsed? && Destination(parse(dir).transport) == d
  }

  /** All transports of the destination have the same reading. */
  predicate Agree(dirs: seq<Dir>, parse: Dir -> Parse, g: Gauge, d: string) {
    forall i, j :: 0 <= i < |dirs| && 0 <= j < |dirs| && Reports(dirs[i], parse, d) && Reports(dirs[j], parse, d) ==>
      Reading(g, parse(dirs[i]).transport) == Reading(g, parse(dirs[j]).transport)
  }

  // ---------------------------------------------------------------- agreement suffices

  /** What is shown is the reading of some transport of that destination. */
  lemma {:induction false} ShownIsRead(ts: seq<Transport>, g: Gauge, d: string) returns (i: nat)
    requires d in Shown(ts, g)
    ensures i < |ts| && Destination(ts[i]) == d && Shown(ts, g)[d] == Reading(g, ts[i])
    decreases |ts|
  {
    i := |ts| - 1;
    if Destination(ts[i]) != d {
      i := ShownIsRead(ts[..i], g, d);
    }
  }

  lemma {:induction false} ExpectedFrom(dirs: seq<Dir>, parse: Dir -> Parse, t: Transport)
    ensures t in Expected(dirs, parse) <==> exists i :: 0 <= i < |dirs| && parse(dirs[i]) == Parsed(t)
    decreases |dirs|
  {
    if dirs != [] {
      ExpectedFrom(dirs[1..], parse, t);
      assert dirs == [dirs[0]] + dirs[1..];
      if i :| 0 <= i < |dirs| && parse(dirs[i]) == Parsed(t) {
        assert i > 0 ==> dirs[1..][i - 1] == dirs[i];
      }
      if i :| 0 <= i < |dirs[1..]| && parse(dirs[1..][i]) == Parsed(t) {
        assert dirs[i + 1] == dirs[1..][i];
      }
    }
  }

  /** After any schedule a destination is shown exactly when some directory reports it, and then
      with the reading of a transport that reports it. */
  lemma DisplayFrom(
    dirs: seq<Dir>, parse: Dir -> Parse, results: seq<Transport>, mounts: map<string, nat>, g: Gauge, d: string)
    returns (i: nat)
    requires multiset(results) == Expected(dirs, parse) && d in mounts
    ensures Display(results, mounts, g, d).Some? <==> exists k :: 0 <= k < |dirs| && Reports(dirs[k], parse, d)
    ensures Display(results, mounts, g, d).Some? ==>
              && i < |dirs| && Reports(dirs[i], parse, d)
              && Display(results, mounts, g, d).value == Reading(g, parse(dirs[i]).transport)
  {
    var ts := Relevant(results, mounts);
    RelevantCorrect(results, mounts);
    ShownKeys(ts, g);
    if d in Shown(ts, g) {
      var k := ShownIsRead(ts, g, d);
      var t := ts[k];
      assert t in results && t in multiset(results);
      ExpectedFrom(dirs, parse, t);
      i :| 0 <= i < |dirs| && parse(dirs[i]) == Parsed(t);
    } else {
      i := 0;
    }
    forall k | 0 <= k < |dirs| && Reports(dirs[k], parse, d) ensures d in Shown(ts, g) {
      var t := parse(dirs[k]).transport;
      ExpectedFrom(dirs, parse, t);
      assert t in multiset(results);
      assert t in ts && d in Destinations(ts);
    }
  }

  // ---------------------------------------------------------------- schedules

  lemma {:induction false} RunConcat(s: State, a: seq<Action>, b: seq<Action>, parse: Dir -> Parse)
    ensures Run(s, a + b, parse) == Run(Run(s, a, parse), b, parse)
    decreases |b|
  {
    if b == [] {
      assert a + b == a;
    } else {
      assert (a + b)[..|a + b| - 1] == a + b[..|b| - 1];
      RunConcat(s, a, b[..|b| - 1], parse);
    }
  }

  lemma RunOne(s: State, a: Action, parse: Dir -> Parse)
    ensures Run(s, [a], parse) == Apply(s, a, parse)
  {
    assert [a][..0] == [];
    assert Run(s, [a][..0], parse) == s;
  }

  function Works(dirs: seq<Dir>): seq<Item> {
    seq(|dirs|, i requires 0 <= i < |dirs| => Work(dirs[i]))
  }

  /** The producer has fed everything and waits. */
  function Waiting(rest: seq<Dir>, busy: nat, workers: seq<Worker>, results: seq<Transport>): State {
    State(Works(rest), |rest| + busy, workers, results, Joining)
  }

  lemma {:induction false} FeedAll(fed: seq<Dir>, rest: seq<Dir>, workers: seq<Worker>, parse: Dir -> Parse)
    returns (schedule: seq<Action>)
    ensures Run(State(Works(fed), |fed|, workers, [], Feeding(rest)), schedule, parse)
            == Waiting(fed + rest, 0, workers, [])
    decreases |rest|
  {
    var s := State(Works(fed), |fed|, workers, [], Feeding(rest));
    RunOne(s, Produce, parse);
    if rest == [] {
      schedule := [Produce];
      assert fed + rest == fed;
    } else {
      var tail := FeedAll(fed + [rest[0]], rest[1..], workers, parse);
      assert Works(fed + [rest[0]]) == Works(fed) + [Work(rest[0])];
      assert fed + [rest[0]] + rest[1..] == fed + rest;
      schedule := [Produce] + tail;
      RunConcat(s, [Produce], tail, parse);
    }
  }

  /** Worker w takes the next directory and parses it. */
  lemma TakeOne(
    d: Dir, rest: seq<Dir>, busy: nat, workers: seq<Worker>, results: seq<Transport>, w: nat, parse: Dir -> Parse)
    returns (schedule: seq<Action>)
    requires w < |workers| && workers[w].Idle?
    ensures var next := if parse(d).Parsed? then Appending(parse(d).transport) else Finishing;
            Run(Waiting([d] + rest, busy, workers, results), schedule, parse)
            == Waiting(rest, busy + 1, workers[w := next], results)
  {
    var s := Waiting([d] + rest, busy, workers, results);
    assert s.queue[0] == Work(d) && s.queue[1..] == Works(rest);
    RunOne(s, Step(w), parse);
    var taken := Waiting(rest, busy + 1, workers[w := Parsing(d)], results);
    assert Apply(s, Step(w), parse) == taken;
    RunOne(taken, Step(w), parse);
    var next := if parse(d).Parsed? then Appending(parse(d).transport) else Finishing;
    assert taken.workers[w := next] == workers[w := next];
    RunConcat(s, [Step(w)], [Step(w)], parse);
    schedule := [Step(w)] + [Step(w)];
  }

  /** Worker w appends its record and marks its directory as done. */
  lemma FinishOne(
    t: Transport, rest: seq<Dir>, busy: nat, workers: seq<Worker>, results: seq<Transport>, w: nat, parse: Dir -> Parse)
    returns (schedule: seq<Action>)
    requires w < |workers| && workers[w] == Appending(t)
    ensures Run(Waiting(rest, busy + 1, workers, results), schedule, parse)
            == Waiting(rest, busy, workers[w := Idle], results + [t])
  {
    var s := Waiting(rest, busy + 1, workers, results);
    RunOne(s, Step(w), parse);
    var appended := Waiting(rest, busy + 1, workers[w := Finishing], results + [t]);
    assert Apply(s, Step(w), parse) == appended;
    RunOne(appended, Step(w), parse);
    assert appended.workers[w := Idle] == workers[w := Idle];
    RunConcat(s, [Step(w)], [Step(w)], parse);
    schedule := [Step(w)] + [Step(w)];
  }

  /** Worker 0 handles one directory from start to end. */
  lemma ServeOne(d: Dir, rest: seq<Dir>, busy: nat, workers: seq<Worker>, results: seq<Transport>, parse: Dir -> Parse)
    returns (schedule: seq<Action>, more: seq<Transport>)
    requires workers != [] && workers[0].Idle?
    ensures Run(Waiting([d] + rest, busy, workers, results), schedule, parse)
            == Waiting(rest, busy, workers, results + more)
  {
    var s := Waiting([d] + rest, busy, workers, results);
    var take := TakeOne(d, rest, busy, workers, results, 0, parse);
    var middle := Run(s, take, parse);
    var finish;
    if parse(d).Parsed? {
      more := [parse(d).transport];
      finish := FinishOne(more[0], rest, busy, middle.workers, results, 0, parse);
      assert middle.workers[0 := Idle] == workers;
    } else {
      more := [];
      finish := [Step(0)];
      RunOne(middle, Step(0), parse);
      assert middle.workers[0 := Idle] == workers;
      assert results + more == results;
    }
    RunConcat(s, take, finish, parse);
    schedule := take + finish;
  }

  /** Worker 0 handles a stretch of directories. */
  lemma {:induction false} ServeAll(
    dirs: seq<Dir>, rest: seq<Dir>, busy: nat, workers: seq<Worker>, results: seq<Transport>, parse: Dir -> Parse)
    returns (schedule: seq<Action>, more: seq<Transport>)
    requires workers != [] && workers[0].Idle?
    ensures Run(Waiting(dirs + rest, busy, workers, results), schedule, parse)
            == Waiting(rest, busy, workers, results + more)
    decreases |dirs|
  {
    if dirs == [] {
      schedule, more := [], [];
      assert dirs + rest == rest && results + more == results;
    } else {
      var one, first := ServeOne(dirs[0], dirs[1..] + rest, busy, workers, results, parse);
      var tail, others := ServeAll(dirs[1..], rest, busy, workers, results + first, parse);
      assert [dirs[0]] + (dirs[1..] + rest) == dirs + rest;
      assert results + first + others == results + (first + others);
      RunConcat(Waiting(dirs + rest, busy, workers, results), one, tail, parse);
      schedule, more := one + tail, first + others;
    }
  }

  /** Worker 0 handles the directories before one that worker 1 has taken and parsed. */
  lemma HoldOne(dirs: seq<Dir>, idle: seq<Worker>, parse: Dir -> Parse, i: nat)
    returns (schedule: seq<Action>, early: seq<Transport>)
    requires |idle| >= 2 && idle[0].Idle? && idle[1].Idle? && i < |dirs| && parse(dirs[i]).Parsed?
    ensures Run(Waiting(dirs, 0, idle, []), schedule, parse)
            == Waiting(dirs[i + 1..], 1, idle[1 := Appending(parse(dirs[i]).transport)], early)
  {
    var rest := dirs[i + 1..];
    var before, take;
    before, early := ServeAll(dirs[..i], [dirs[i]] + rest, 0, idle, [], parse);
    assert dirs[..i] + ([dirs[i]] + rest) == dirs && [] + early == early;
    take := TakeOne(dirs[i], rest, 0, idle, early, 1, parse);
    RunConcat(Waiting(dirs, 0, idle, []), before, take, parse);
    schedule := before + take;
  }

  /** Worker 0 handles the rest, and only then worker 1 goes on; the join returns. */
  lemma ReleaseOne(rest: seq<Dir>, held: seq<Worker>, early: seq<Transport>, t: Transport, parse: Dir -> Parse)
    returns (schedule: seq<Action>, late: seq<Transport>)
    requires |held| >= 2 && held[0].Idle? && held[1] == Appending(t)
    ensures var s := Run(Waiting(rest, 1, held, early), schedule, parse);
            Joined(s.producer) && s.results == early + late + [t]
  {
    var after, finish;
    after, late := ServeAll(rest, [], 1, held, early, parse);
    assert rest + [] == rest;
    finish := FinishOne(t, [], 0, held, early + late, 1, parse);
    var last := Waiting([], 0, held[1 := Idle], early + late + [t]);
    RunOne(last, Produce, parse);
    var s := Waiting(rest, 1, held, early);
    RunConcat(s, after, finish, parse);
    RunConcat(s, after + finish, [Produce], parse);
    schedule := after + finish + [Produce];
  }

  /** With two workers any directory's record can be the last to be appended. */
  lemma AnyCanBeLast(dirs: seq<Dir>, workers: nat, parse: Dir -> Parse, i: nat)
    returns (schedule: seq<Action>, first: seq<Transport>)
    requires workers >= 2 && i < |dirs| && parse(dirs[i]).Parsed?
    ensures var s := Run(Begin(dirs, workers), schedule, parse);
            Joined(s.producer) && s.results == first + [parse(dirs[i]).transport]
  {
    var idle := Begin(dirs, workers).workers;
    var t := parse(dirs[i]).transport;
    var feed := FeedAll([], dirs, idle, parse);
    assert Works([]) == [] && [] + dirs == dirs;
    var hold, early := HoldOne(dirs, idle, parse, i);
    var release, late := ReleaseOne(dirs[i + 1..], idle[1 := Appending(t)], early, t, parse);
    RunConcat(Begin(dirs, workers), feed, hold, parse);
    RunConcat(Begin(dirs, workers), feed + hold, release, parse);
    schedule, first := feed + hold + release, early + late;
  }

  lemma LastIsDisplayed(first: seq<Transport>, t: Transport, mounts: map<string, nat>, g: Gauge)
    requires Destination(t) in mounts
    ensures Display(first + [t], mounts, g, Destination(t)) == Some(Reading(g, t))
  {
    var results := first + [t];
    assert results[..|results| - 1] == first;
    var ts := Relevant(results, mounts);
    assert ts == Relevant(first, mounts) + [t];
    assert ts[..|ts| - 1] == Relevant(first, mounts);
  }

  /** Two transports of one destination that differ in a reading: two schedules show the two. */
  lemma DisagreementShows(
    dirs: seq<Dir>, workers: nat, parse: Dir -> Parse, mounts: map<string, nat>, g: Gauge, d: string)
    returns (schedule1: seq<Action>, schedule2: seq<Action>)
    requires workers >= 2 && d in mounts && !Agree(dirs, parse, g, d)
    ensures var r1 := Run(Begin(dirs, workers), schedule1, parse);
            var r2 := Run(Begin(dirs, workers), schedule2, parse);
            && Joined(r1.producer) && Joined(r2.producer)
            && Display(r1.results, mounts, g, d) != Display(r2.results, mounts, g, d)
  {
    var i, j :| 0 <= i < |dirs| && 0 <= j < |dirs| && Reports(dirs[i], parse, d) && Reports(dirs[j], parse, d)
                && Reading(g, parse(dirs[i]).transport) != Reading(g, parse(dirs[j]).transport);
    var first1, first2;
    schedule1, first1 := AnyCanBeLast(dirs, workers, parse, i);
    schedule2, first2 := AnyCanBeLast(dirs, workers, parse, j);
    LastIsDisplayed(first1, parse(dirs[i]).transport, mounts, g);
    LastIsDisplayed(first2, parse(dirs[j]).transport, mounts, g);
  }

  lemma AgreementDecides(
    dirs: seq<Dir>, workers: nat, parse: Dir -> Parse, mounts: map<string, nat>, g: Gauge, d: string,
    schedule1: seq<Action>, schedule2: seq<Action>)
    requires d in mounts && Agree(dirs, parse, g, d)
    requires Joined(Run(Begin(dirs, workers), schedule1, parse).producer)
    requires Joined(Run(Begin(dirs, workers), schedule2, parse).producer)
    ensures Display(Run(Begin(dirs, workers), schedule1, parse).results, mounts, g, d)
            == Display(Run(Begin(dirs, workers), schedule2, parse).results, mounts, g, d)
  {
    PoolResults(dirs, workers, schedule1, parse);
    PoolResults(dirs, workers, schedule2, parse);
    var i := DisplayFrom(dirs, parse, Run(Begin(dirs, workers), schedule1, parse).results, mounts, g, d);
    var j := DisplayFrom(dirs, parse, Run(Begin(dirs, workers), schedule2, parse).results, mounts, g, d);
  }

  /** With at least two workers, what a gauge shows for a destination is the same under all
      schedules if and only if all transports of that destination agree on its reading. */
  lemma DisplayIndependence(
    dirs: seq<Dir>, workers: nat, parse: Dir -> Parse, mounts: map<string, nat>, g: Gauge, d: string)
    requires workers >= 2 && d in mounts
    ensures (forall schedule1, schedule2 ::
               Joined(Run(Begin(dirs, workers), schedule1, parse).producer)
               && Joined(Run(Begin(dirs, workers), schedule2, parse).producer) ==>
                 Display(Run(Begin(dirs, workers), schedule1, parse).results, mounts, g, d)
                 == Display(Run(Begin(dirs, workers), schedule2, parse).results, mounts, g, d))
            <==> Agree(dirs, parse, g, d)
  {
    if Agree(dirs, parse, g, d) {
      forall schedule1, schedule2 |
        && Joined(Run(Begin(dirs, workers), schedule1, parse).producer)
        && Joined(Run(Begin(dirs, workers), schedule2, parse).producer)
        ensures Display(Run(Begin(dirs, workers), schedule1, parse).results, mounts, g, d)
                == Display(Run(Begin(dirs, workers), schedule2, parse).results, mounts, g, d)
      {
        AgreementDecides(dirs, workers, parse, mounts, g, d, schedule1, schedule2);
      }
    } else {
      var schedule1, schedule2 := DisagreementShows(dirs, workers, parse, mounts, g, d);
    }
  }
}
