/** metrics.update_xprt_metrics: six gauges labelled by destination, which must show exactly the
    destinations of the transports that serve CSI mounts. */
module XprtGauges {

  /** What is read of one transport. */
  datatype Transport = Transport(remote: string, flags: set<string>, pending: int, backlog: int, healthy: bool)

  /** Position of the last ':'; the length when there is none. */
  function LastColon(s: string): (n: nat)
    ensures n <= |s|
    ensures n < |s| ==> s[n] == ':' && ':' !in s[n + 1..]
    ensures n == |s| ==> ':' !in s
  {
    if s == "" then 0
    else if s[|s| - 1] == ':' then |s| - 1
    else
      var front := s[..|s| - 1];
      var n := LastColon(front);
      assert s == front + [s[|s| - 1]];
      assert n < |front| ==> s[n + 1..] == front[n + 1..] + [s[|s| - 1]];
      if n == |front| then |s| else n
  }

  /** The address without its port: `rsplit(":", 1)[0]`. */
  function Destination(t: Transport): string {
    t.remote[..LastColon(t.remote)]
  }

  predicate Connected(t: Transport) {
    "CONNECTED" in t.flags && "BOUND" in t.flags
  }

  predicate Congested(t: Transport) {
    "CONGESTED" in t.flags || "CWND_WAIT" in t.flags
  }

  /** The transports whose destination serves a CSI mount. */
  function Relevant(ts: seq<Transport>, mounts: map<string, nat>): seq<Transport> {
    if ts == [] then []
    else Relevant(ts[..|ts| - 1], mounts) + if Destination(ts[|ts| - 1]) in mounts then [ts[|ts| - 1]] else []
  }

  function Destinations(ts: seq<Transport>): set<string> {
    set t | t in ts :: Destination(t)
  }

  /** The gauges that read a transport; the sixth counts mounts. */
  datatype Gauge = ConnectedGauge | CongestedGauge | LockedGauge | PendingGauge | BacklogGauge

  function Flag(b: bool): int {
    if b then 1 else 0
  }

  function Reading(g: Gauge, t: Transport): int {
    match g
    case ConnectedGauge => Flag(Connected(t))
    case CongestedGauge => Flag(Congested(t))
    case LockedGauge => Flag("LOCKED" in t.flags)
    case PendingGauge => t.pending
    case BacklogGauge => t.backlog
  }

  /** What a gauge shows: per destination, the value of the last transport. */
  function Shown(ts: seq<Transport>, g: Gauge): map<string, int> {
    if ts == [] then map[]
    else Shown(ts[..|ts| - 1], g)[Destination(ts[|ts| - 1]) := Reading(g, ts[|ts| - 1])]
  }

  lemma {:induction false} ShownKeys(ts: seq<Transport>, g: Gauge)
    ensures Shown(ts, g).Keys == Destinations(ts)
    decreases |ts|
  {
    if ts != [] {
      ShownKeys(ts[..|ts| - 1], g);
      assert ts == ts[..|ts| - 1] + [ts[|ts| - 1]];
      assert Destinations(ts) == Destinations(ts[..|ts| - 1]) + {Destination(ts[|ts| - 1])};
    }
  }

  /** Of several transports of one destination, the last is shown. */
  lemma {:induction false} ShownLast(ts: seq<Transport>, g: Gauge, i: nat)
    requires i < |ts| && forall j :: i < j < |ts| ==> Destination(ts[j]) != Destination(ts[i])
    ensures Destination(ts[i]) in Shown(ts, g) && Shown(ts, g)[Destination(ts[i])] == Reading(g, ts[i])
    decreases |ts|
  {
    if i < |ts| - 1 {
      ShownLast(ts[..|ts| - 1], g, i);
    }
  }

  /** The relevant transports are those, and only those, of a mounted destination. */
  lemma {:induction false} RelevantCorrect(ts: seq<Transport>, mounts: map<string, nat>)
    ensures forall t :: t in Relevant(ts, mounts) <==> t in ts && Destination(t) in mounts
    decreases |ts|
  {
    if ts != [] {
      RelevantCorrect(ts[..|ts| - 1], mounts);
      assert ts == ts[..|ts| - 1] + [ts[|ts| - 1]];
    }
  }

  class Gauges {
    var connected: map<string, int>
    var congested: map<string, int>
    var locked: map<string, int>
    var pending: map<string, int>
    var backlog: map<string, int>
    var mounted: map<string, int>
    var previous: set<string>        // _xprt_previous_destinations

    constructor ()
      ensures Agree() && previous == {}
    {
      connected, congested, locked, pending, backlog, mounted, previous :=
        map[], map[], map[], map[], map[], map[], {};
    }

    /** All six gauges carry exactly the remembered destinations. */
    predicate Agree()
      reads this
    {
      connected.Keys == congested.Keys == locked.Keys == pending.Keys == backlog.Keys == mounted.Keys == previous
    }

    /** The labels every gauge has. */
    function Common(): set<string>
      reads this
    {
      connected.Keys * congested.Keys * locked.Keys * pending.Keys * backlog.Keys * mounted.Keys
    }

    /** The gauges show these transports and mount counts, and nothing else. */
    predicate Shows(transports: seq<Transport>, mounts: map<string, nat>)
      reads this
    {
      var ts := Relevant(transports, mounts);
      && previous == Destinations(ts)
      && connected == Shown(ts, ConnectedGauge)
      && congested == Shown(ts, CongestedGauge)
      && locked == Shown(ts, LockedGauge)
      && pending == Shown(ts, PendingGauge)
      && backlog == Shown(ts, BacklogGauge)
      && mounted.Keys == previous
      && (forall d :: d in mounted ==> d in mounts && mounted[d] == mounts[d])
    }

    /** The loop over the relevant transports. */
    method SetPerTransport(ts: seq<Transport>) returns (current: set<string>)
      modifies this`connected, this`congested, this`locked, this`pending, this`backlog
      ensures current == Destinations(ts)
      ensures connected == old(connected) + Shown(ts, ConnectedGauge)
      ensures congested == old(congested) + Shown(ts, CongestedGauge)
      ensures locked == old(locked) + Shown(ts, LockedGauge)
      ensures pending == old(pending) + Shown(ts, PendingGauge)
      ensures backlog == old(backlog) + Shown(ts, BacklogGauge)
    {
      current := {};
      for i := 0 to |ts|
        invariant current == Destinations(ts[..i])
        invariant connected == old(connected) + Shown(ts[..i], ConnectedGauge)
        invariant congested == old(congested) + Shown(ts[..i], CongestedGauge)
        invariant locked == old(locked) + Shown(ts[..i], LockedGauge)
        invariant pending == old(pending) + Shown(ts[..i], PendingGauge)
        invariant backlog == old(backlog) + Shown(ts[..i], BacklogGauge)
      {
        DestinationsStep(ts, i);
        MergeStep(old(connected), ts, i, ConnectedGauge);
        MergeStep(old(congested), ts, i, CongestedGauge);
        MergeStep(old(locked), ts, i, LockedGauge);
        MergeStep(old(pending), ts, i, PendingGauge);
        MergeStep(old(backlog), ts, i, BacklogGauge);
        current := current + {Destination(ts[i])};
        Set(ts[i]);
      }
      assert ts[..|ts|] == ts;
    }

    method Set(t: Transport)
      modifies this`connected, this`congested, this`locked, this`pending, this`backlog
      ensures connected == old(connected)[Destination(t) := Reading(ConnectedGauge, t)]
      ensures congested == old(congested)[Destination(t) := Reading(CongestedGauge, t)]
      ensures locked == old(locked)[Destination(t) := Reading(LockedGauge, t)]
      ensures pending == old(pending)[Destination(t) := Reading(PendingGauge, t)]
      ensures backlog == old(backlog)[Destination(t) := Reading(BacklogGauge, t)]
    {
      var dest := Destination(t);
      connected := connected[dest := Flag(Connected(t))];
      congested := congested[dest := Flag(Congested(t))];
      locked := locked[dest := Flag("LOCKED" in t.flags)];
      pending := pending[dest := t.pending];
      backlog := backlog[dest := t.backlog];
    }

    /** The loop that sets the mount counts. */
    method SetMounts(current: set<string>, mounts: map<string, nat>)
      requires current <= mounts.Keys
      modifies this`mounted
      ensures mounted == old(mounted) + map d | d in current :: mounts[d] as int
    {
      var rest := current;
      while rest != {}
        invariant rest <= current
        invariant mounted == old(mounted) + map d | d in current - rest :: mounts[d] as int
        decreases rest
      {
        var d :| d in rest;
        mounted := mounted[d := mounts[d]];
        rest := rest - {d};
      }
    }

    /** The pops of one removed destination; the first missing key ends them. */
    method Pop(dest: string) returns (missed: bool)
      modifies this`connected, this`congested, this`locked, this`pending, this`backlog, this`mounted
      ensures !missed <==> dest in old(Common())
      ensures !missed ==> connected == old(connected) - {dest} && congested == old(congested) - {dest}
      ensures !missed ==> locked == old(locked) - {dest} && pending == old(pending) - {dest}
      ensures !missed ==> backlog == old(backlog) - {dest} && mounted == old(mounted) - {dest}
    {
      if dest !in connected { return true; }
      connected := connected - {dest};
      if dest !in congested { return true; }
      congested := congested - {dest};
      if dest !in locked { return true; }
      locked := locked - {dest};
      if dest !in pending { return true; }
      pending := pending - {dest};
      if dest !in backlog { return true; }
      backlog := backlog - {dest};
      if dest !in mounted { return true; }
      mounted := mounted - {dest};
      return false;
    }

    /** The loop over removed destinations. */
    method Remove(removed: set<string>) returns (missed: bool)
      modifies this`connected, this`congested, this`locked, this`pending, this`backlog, this`mounted
      ensures removed <= old(Common()) ==> !missed
      ensures !missed ==> connected == old(connected) - removed && congested == old(congested) - removed
      ensures !missed ==> locked == old(locked) - removed && pending == old(pending) - removed
      ensures !missed ==> backlog == old(backlog) - removed && mounted == old(mounted) - removed
    {
      missed := false;
      var rest := removed;
      while rest != {}
        invariant rest <= removed
        invariant !missed ==> connected == old(connected) - (removed - rest)
        invariant !missed ==> congested == old(congested) - (removed - rest)
        invariant !missed ==> locked == old(locked) - (removed - rest) && pending == old(pending) - (removed - rest)
        invariant !missed ==> backlog == old(backlog) - (removed - rest) && mounted == old(mounted) - (removed - rest)
        invariant removed <= old(Common()) ==> !missed
        decreases rest
      {
        var d :| d in rest;
        ghost var done := removed - rest;
        rest := rest - {d};
        assert removed - rest == done + {d};
        var miss := Pop(d);
        missed := missed || miss;   // a KeyError is passed over
      }
    }

    /** Set the current labels, and remove those that have vanished. */
    method Refresh(ts: seq<Transport>, mounts: map<string, nat>)
      requires Agree() && Destinations(ts) <= mounts.Keys
      modifies this
      ensures previous == Destinations(ts)
      ensures connected == Shown(ts, ConnectedGauge) && congested == Shown(ts, CongestedGauge)
      ensures locked == Shown(ts, LockedGauge) && pending == Shown(ts, PendingGauge)
      ensures backlog == Shown(ts, BacklogGauge)
      ensures mounted == map d | d in Destinations(ts) :: mounts[d] as int
    {
      var current := SetPerTransport(ts);
      SetMounts(current, mounts);
      assert previous - current <= Common();
      var missed := Remove(previous - current);
      assert !missed;
      assert connected == Shown(ts, ConnectedGauge) by { ShownReplaces(old(connected), ts, ConnectedGauge, previous); }
      assert congested == Shown(ts, CongestedGauge) by { ShownReplaces(old(congested), ts, CongestedGauge, previous); }
      assert locked == Shown(ts, LockedGauge) by { ShownReplaces(old(locked), ts, LockedGauge, previous); }
      assert pending == Shown(ts, PendingGauge) by { ShownReplaces(old(pending), ts, PendingGauge, previous); }
      assert backlog == Shown(ts, BacklogGauge) by { ShownReplaces(old(backlog), ts, BacklogGauge, previous); }
      ghost var counts := map d | d in current :: mounts[d] as int;
      assert mounted == counts by { Replaced(old(mounted), counts, previous, current); }
      previous := current;
    }

    /** One update that raises nothing. */
    method Update(transports: seq<Transport>, mounts: map<string, nat>)
      requires Agree()
      modifies this
      ensures Agree() && Shows(transports, mounts)
    {
      var ts := Filter(transports, mounts);
      RelevantCorrect(transports, mounts);
      Refresh(ts, mounts);
      ShownKeys(ts, ConnectedGauge);
      ShownKeys(ts, CongestedGauge);
      ShownKeys(ts, LockedGauge);
      ShownKeys(ts, PendingGauge);
      ShownKeys(ts, BacklogGauge);
    }

    /** After every sequence of updates the gauges show what the last one found. */
    method Run(updates: seq<(seq<Transport>, map<string, nat>)>)
      requires Agree()
      modifies this
      ensures Agree()
      ensures updates != [] ==> Shows(updates[|updates| - 1].0, updates[|updates| - 1].1)
    {
      for i := 0 to |updates|
        invariant Agree()
        invariant i > 0 ==> Shows(updates[i - 1].0, updates[i - 1].1)
      {
        Update(updates[i].0, updates[i].1);
      }
    }
  }

  method Filter(transports: seq<Transport>, mounts: map<string, nat>) returns (ts: seq<Transport>)
    ensures ts == Relevant(transports, mounts)
  {
    ts := [];
    for i := 0 to |transports|
      invariant ts == Relevant(transports[..i], mounts)
    {
      assert transports[..i + 1][..i] == transports[..i];
      if Destination(transports[i]) in mounts {
        ts := ts + [transports[i]];
      }
    }
    assert transports[..|transports|] == transports;
  }

  lemma MergeStep(m: map<string, int>, ts: seq<Transport>, i: nat, g: Gauge)
    requires i < |ts|
    ensures (m + Shown(ts[..i], g))[Destination(ts[i]) := Reading(g, ts[i])] == m + Shown(ts[..i + 1], g)
  {
    assert ts[..i + 1][..i] == ts[..i];
  }

  lemma DestinationsStep(ts: seq<Transport>, i: nat)
    requires i < |ts|
    ensures Destinations(ts[..i + 1]) == Destinations(ts[..i]) + {Destination(ts[i])}
  {
    assert ts[..i + 1] == ts[..i] + [ts[i]];
  }

  lemma ShownReplaces(m: map<string, int>, ts: seq<Transport>, g: Gauge, previous: set<string>)
    requires m.Keys == previous
    ensures (m + Shown(ts, g)) - (previous - Destinations(ts)) == Shown(ts, g)
  {
    ShownKeys(ts, g);
    Replaced(m, Shown(ts, g), previous, Destinations(ts));
  }

  /** Setting the current labels and removing the vanished ones replaces a gauge. */
  lemma Replaced(m: map<string, int>, shown: map<string, int>, previous: set<string>, current: set<string>)
    requires m.Keys == previous && shown.Keys == current
    ensures (m + shown) - (previous - current) == shown
  {
  }

  /** What the gauges show for a destination, in terms of the address and state of its last transport:
      the address goes without its port, connected takes both flags, congested either of two. */
  lemma ShownMeans(ts: seq<Transport>, i: nat, host: string, port: string, g: Gauge)
    requires i < |ts| && forall j :: i < j < |ts| ==> Destination(ts[j]) != Destination(ts[i])
    requires ts[i].remote == host + ":" + port && ':' !in port
    ensures host in Shown(ts, g)
    ensures g == ConnectedGauge ==> Shown(ts, g)[host] == Flag({"CONNECTED", "BOUND"} <= ts[i].flags)
    ensures g == CongestedGauge ==> Shown(ts, g)[host] == Flag(!({"CONGESTED", "CWND_WAIT"} !! ts[i].flags))
    ensures g == LockedGauge ==> Shown(ts, g)[host] == Flag({"LOCKED"} <= ts[i].flags)
    ensures g == PendingGauge ==> Shown(ts, g)[host] == ts[i].pending
    ensures g == BacklogGauge ==> Shown(ts, g)[host] == ts[i].backlog
    ensures Flag(true) == 1 && Flag(false) == 0
  {
    WithoutPort(ts[i], host, port);
    ShownLast(ts, g, i);
  }

  lemma WithoutPort(t: Transport, host: string, port: string)
    requires t.remote == host + ":" + port && ':' !in port
    ensures Destination(t) == host
  {
    LastColonAt(host, port);
    assert t.remote[..|host|] == host;
  }

  lemma {:induction false} LastColonAt(host: string, port: string)
    requires ':' !in port
    ensures LastColon(host + ":" + port) == |host|
    decreases |port|
  {
    var s := host + ":" + port;
    if port != "" {
      assert s[..|s| - 1] == host + ":" + port[..|port| - 1] && s[|s| - 1] == port[|port| - 1];
      assert port[|port| - 1] in port;
      LastColonAt(host, port[..|port| - 1]);
    }
  }
}
