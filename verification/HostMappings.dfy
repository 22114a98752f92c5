/** What the block-host protocol does to mappings and hosts, step by step over every run, and what
    one call comes to when nothing disturbs it. */
module HostMappings {
  import opened HostPrune
  import opened Lists
  import opened Strings

  // ---------------------------------------------------------------- who changes what

  /** The action advances an Unpublish of this volume whose host, by node and tenant, has this id. */
  ghost predicate Unpublishes(s: State, a: Action, m: Mapping) {
    && a.Advance? && a.thread in s.threads && s.threads[a.thread].call.Unpublish?
    && var call := s.threads[a.thread].call;
       && m.volume == call.volume
       && HostKey(call.node, m.volume.tenant) in s.hosts
       && s.hosts[HostKey(call.node, m.volume.tenant)].id == m.host
  }

  /** The same for a Publish. */
  ghost predicate Publishes(s: State, a: Action, m: Mapping) {
    && a.Advance? && a.thread in s.threads && s.threads[a.thread].call.Publish?
    && var call := s.threads[a.thread].call;
       && m.volume == call.volume
       && HostKey(call.node, m.volume.tenant) in s.hosts
       && s.hosts[HostKey(call.node, m.volume.tenant)].id == m.host
  }

  lemma StepUnmaps(s: State, a: Action, m: Mapping)
    requires Safe(s) && m in s.mappings && m !in Apply(s, a).mappings
    ensures Unpublishes(s, a, m)
  {
    assert a.Advance? && a.thread in s.threads;
    assert ThreadFact(s, s.threads[a.thread]);
    var k :| k in s.hosts && s.hosts[k].id == m.host && k.tenant == m.volume.tenant;
  }

  lemma StepMaps(s: State, a: Action, m: Mapping)
    requires Safe(s) && m !in s.mappings && m in Apply(s, a).mappings
    ensures Publishes(s, a, m)
  {
    assert a.Advance? && a.thread in s.threads;
    assert ThreadFact(s, s.threads[a.thread]);
  }

  lemma RunSplit(s: State, actions: seq<Action>, i: nat)
    requires i < |actions|
    ensures Run(s, actions[..i + 1]) == Apply(Run(s, actions[..i]), actions[i])
  {
    assert actions[..i + 1][..i] == actions[..i];
  }

  /** In every interleaving a mapping goes only by an Unpublish of its own volume on its own host. */
  lemma MappingGoes(s: State, actions: seq<Action>, i: nat, m: Mapping)
    requires Starting(s) && i < |actions|
    requires m in Run(s, actions[..i]).mappings && m !in Run(s, actions[..i + 1]).mappings
    ensures Unpublishes(Run(s, actions[..i]), actions[i], m)
  {
    RunSafe(s, actions[..i]);
    RunSplit(s, actions, i);
    StepUnmaps(Run(s, actions[..i]), actions[i], m);
  }

  /** And comes only by a Publish of its own volume on its own host. */
  lemma MappingComes(s: State, actions: seq<Action>, i: nat, m: Mapping)
    requires Starting(s) && i < |actions|
    requires m !in Run(s, actions[..i]).mappings && m in Run(s, actions[..i + 1]).mappings
    ensures Publishes(Run(s, actions[..i]), actions[i], m)
  {
    RunSafe(s, actions[..i]);
    RunSplit(s, actions, i);
    StepMaps(Run(s, actions[..i]), actions[i], m);
  }

  lemma NotFound(s: State, t: nat, k: HostKey)
    requires Safe(s) && t in s.threads && s.threads[t].call.Unpublish? && s.threads[t].pc.FindMapping?
    requires Apply(s, Advance(t)).threads[t].pc.TakeLock? && k in s.hosts && k.node == s.threads[t].call.node
    ensures Mapping(s.threads[t].call.volume, s.hosts[k].id) !in s.mappings
  {
    UnpublishFinds(s, t);
    FoundHostIsOwn(s, t);
    var call := s.threads[t].call;
    assert Mapping(call.volume, s.hosts[k].id) in s.mappings <==> k in MappedHosts(s, call.node, call.volume);
  }

  /** In every interleaving, the step by which an Unpublish comes to the lock leaves its volume unmapped
      from the host it had found, and from every host of the node if it had found none. */
  lemma UnmapDone(s: State, actions: seq<Action>, i: nat, t: nat)
    requires Starting(s) && i < |actions| && actions[i] == Advance(t)
    requires var before, after := Run(s, actions[..i]), Run(s, actions[..i + 1]);
             && t in before.threads && (before.threads[t].pc.FindMapping? || before.threads[t].pc.Unmap?)
             && t in after.threads && after.threads[t].pc.TakeLock?
    ensures var Thread(call, pc), after := Run(s, actions[..i]).threads[t], Run(s, actions[..i + 1]);
            && (pc.Unmap? ==> Mapping(call.volume, pc.host) !in after.mappings)
            && (pc.FindMapping? ==>
                  forall k :: k in after.hosts && k.node == call.node ==>
                    Mapping(call.volume, after.hosts[k].id) !in after.mappings)
  {
    var before := Run(s, actions[..i]);
    RunSafe(s, actions[..i]);
    RunSplit(s, actions, i);
    assert ThreadFact(before, before.threads[t]);
    if before.threads[t].pc.FindMapping? {
      forall k | k in before.hosts && k.node == before.threads[t].call.node
        ensures Mapping(before.threads[t].call.volume, before.hosts[k].id) !in before.mappings
      {
        NotFound(before, t, k);
      }
    }
  }

  lemma StepDeletes(s: State, a: Action, k: HostKey)
    requires Safe(s) && k in s.hosts && k !in Apply(s, a).hosts
    ensures a.Advance? && a.thread in s.threads && s.threads[a.thread].call.Unpublish?
    ensures var call := s.threads[a.thread].call; k == HostKey(call.node, call.volume.tenant)
    ensures s.hosts[k].managed && forall m :: m in s.mappings ==> m.host != s.hosts[k].id
  {
    assert a.Advance? && a.thread in s.threads;
    assert ThreadFact(s, s.threads[a.thread]);
  }

  /** In every interleaving a host goes only by an Unpublish for its node and tenant, while it is
      managed and no volume is mapped to it. */
  lemma HostGoes(s: State, actions: seq<Action>, i: nat, k: HostKey)
    requires Starting(s) && i < |actions|
    requires k in Run(s, actions[..i]).hosts && k !in Run(s, actions[..i + 1]).hosts
    ensures var r, a := Run(s, actions[..i]), actions[i];
            && a.Advance? && a.thread in r.threads && r.threads[a.thread].call.Unpublish?
            && r.threads[a.thread].call.node == k.node && r.threads[a.thread].call.volume.tenant == k.tenant
            && r.hosts[k].managed && forall m :: m in r.mappings ==> m.host != r.hosts[k].id
  {
    RunSafe(s, actions[..i]);
    RunSplit(s, actions, i);
    StepDeletes(Run(s, actions[..i]), actions[i], k);
  }

  lemma StepMakes(s: State, a: Action, k: HostKey)
    requires Safe(s) && k in Apply(s, a).hosts
    ensures k in s.hosts ==> Apply(s, a).hosts[k] == s.hosts[k]
    ensures k !in s.hosts ==>
              && a.Advance? && a.thread in s.threads && s.threads[a.thread].call.Publish?
              && k == HostKey(s.threads[a.thread].call.node, s.threads[a.thread].call.volume.tenant)
              && Apply(s, a).hosts[k] == Host(s.nextId, true)
  {
  }

  lemma MappedIdsBound(s: State)
    requires Safe(s)
    ensures forall m :: m in s.mappings ==> m.host < s.nextId
  {
    forall m | m in s.mappings ensures m.host < s.nextId {
      var l :| l in s.hosts && s.hosts[l].id == m.host && l.tenant == m.volume.tenant;
    }
  }

  /** And comes only by a Publish for its node and tenant, managed and under a new id; a host that
      stays is not changed. */
  lemma HostComes(s: State, actions: seq<Action>, i: nat, k: HostKey)
    requires Starting(s) && i < |actions| && k in Run(s, actions[..i + 1]).hosts
    ensures var r, a, h := Run(s, actions[..i]), actions[i], Run(s, actions[..i + 1]).hosts[k];
            if k in r.hosts then h == r.hosts[k]
            else
              && a.Advance? && a.thread in r.threads && r.threads[a.thread].call.Publish?
              && r.threads[a.thread].call.node == k.node && r.threads[a.thread].call.volume.tenant == k.tenant
              && h.managed && (forall l :: l in r.hosts ==> r.hosts[l].id < h.id)
              && (forall m :: m in r.mappings ==> m.host < h.id)
  {
    RunSafe(s, actions[..i]);
    RunSplit(s, actions, i);
    StepMakes(Run(s, actions[..i]), actions[i], k);
    MappedIdsBound(Run(s, actions[..i]));
  }

  // ---------------------------------------------------------------- one call, undisturbed

  /** The call at this place, inside the locked section. */
  function Inside(s: State, t: nat, pc: Pc): State
    requires t in s.threads
  {
    Outside(s, t, pc).(locks := s.locks[LockName(Key(s.threads[t].call)) := t])
  }

  /** The call at this place, outside the locked section. */
  function Outside(s: State, t: nat, pc: Pc): State
    requires t in s.threads
  {
    s.(threads := s.threads[t := s.threads[t].(pc := pc)])
  }

  predicate LockFree(s: State, t: nat)
    requires t in s.threads
  {
    LockName(Key(s.threads[t].call)) !in s.locks
  }

  lemma PublishInside(s: State, t: nat, pc: Pc)
    requires t in s.threads && s.threads[t].call.Publish? && LockFree(s, t) && HoldsLock(pc)
    ensures var call := s.threads[t].call;
            var e, next := PublishEffect(s, call, pc), PublishNext(s, call, pc);
            Apply(Inside(s, t, pc), Advance(t)) == if HoldsLock(next) then Inside(e, t, next) else Outside(e, t, next)
  {
    var call, i := s.threads[t].call, Inside(s, t, pc);
    assert PublishNext(i, call, pc) == PublishNext(s, call, pc);
    assert i.locks - {LockName(Key(call))} == s.locks;
    assert i.threads[t := Thread(call, PublishNext(s, call, pc))]
           == s.threads[t := Thread(call, PublishNext(s, call, pc))];
  }

  lemma UnpublishInside(s: State, t: nat, pc: Pc)
    requires t in s.threads && s.threads[t].call.Unpublish? && LockFree(s, t) && HoldsLock(pc)
    ensures var call := s.threads[t].call;
            var e, next := UnpublishEffect(s, call, pc), UnpublishNext(s, call, pc);
            Apply(Inside(s, t, pc), Advance(t)) == if HoldsLock(next) then Inside(e, t, next) else Outside(e, t, next)
  {
    var call, i := s.threads[t].call, Inside(s, t, pc);
    assert HasMapping(i, if Key(call) in s.hosts then s.hosts[Key(call)].id else 0)
           == HasMapping(s, if Key(call) in s.hosts then s.hosts[Key(call)].id else 0);
    assert UnpublishNext(i, call, pc) == UnpublishNext(s, call, pc);
    assert i.locks - {LockName(Key(call))} == s.locks;
    assert i.threads[t := Thread(call, UnpublishNext(s, call, pc))]
           == s.threads[t := Thread(call, UnpublishNext(s, call, pc))];
  }

  /** Only this call moves, so many steps. */
  function Times(t: nat, n: nat): seq<Action> {
    seq(n, _ => Advance(t))
  }

  ghost function Stepped(s: State, t: nat, n: nat): State
    decreases n
  {
    if n == 0 then s else Stepped(Apply(s, Advance(t)), t, n - 1)
  }

  lemma {:induction false} SteppedRuns(s: State, t: nat, n: nat)
    ensures Stepped(s, t, n) == Run(s, Times(t, n))
    decreases n
  {
    if n > 0 {
      SteppedRuns(Apply(s, Advance(t)), t, n - 1);
      assert Times(t, n) == [Advance(t)] + Times(t, n - 1);
      RunConcat(s, [Advance(t)], Times(t, n - 1));
      assert [Advance(t)][..0] == [];
    }
  }

  lemma {:induction false} SteppedAdds(s: State, t: nat, m: nat, n: nat)
    ensures Stepped(s, t, m + n) == Stepped(Stepped(s, t, m), t, n)
    decreases m
  {
    if m > 0 { SteppedAdds(Apply(s, Advance(t)), t, m - 1, n); }
  }

  lemma {:induction false} RunConcat(s: State, a: seq<Action>, b: seq<Action>)
    ensures Run(s, a + b) == Run(Run(s, a), b)
    decreases |b|
  {
    if b == [] {
      assert a + b == a;
    } else {
      var front := b[..|b| - 1];
      assert (a + b)[..|a + b| - 1] == a + front;
      RunConcat(s, a, front);
    }
  }

  /** The hosts with the one of the call there. */
  function WithHost(s: State, k: HostKey): map<HostKey, Host> {
    if k in s.hosts then s.hosts else s.hosts[k := Host(s.nextId, true)]
  }

  /** The volume is mapped to another host than this one. */
  ghost predicate MappedElsewhere(s: State, volume: Volume, host: nat) {
    exists m :: m in s.mappings && m.volume == volume && m.host != host
  }

  /** From the mapping check on; `e` is what the backend holds then. */
  lemma PublishFromCheck(s: State, t: nat, h: nat) returns (n: nat, e: State)
    requires t in s.threads && s.threads[t].call.Publish? && LockFree(s, t)
    ensures var call := s.threads[t].call;
            var refused := !call.multiNode && MappedElsewhere(s, call.volume, h);
            && e == s.(mappings := e.mappings, missed := e.missed)
            && e.mappings == s.mappings + (if refused then {} else {Mapping(call.volume, h)})
            && Stepped(Inside(s, t, CheckMapping(h)), t, n) == Outside(e, t, if refused then Waiting else Done)
  {
    var call := s.threads[t].call;
    var check := Inside(s, t, CheckMapping(h));
    PublishInside(s, t, CheckMapping(h));
    if !call.multiNode && MappedElsewhere(s, call.volume, h) {
      n, e := 1, s;
      assert Stepped(check, t, 1) == Stepped(Apply(check, Advance(t)), t, 0);
    } else if Mapping(call.volume, h) in s.mappings {
      n, e := 2, s;
      PublishInside(s, t, Reply);
      assert Stepped(check, t, 2) == Stepped(Inside(s, t, Reply), t, 1) == Outside(s, t, Done);
    } else {
      n, e := 3, PublishEffect(s, call, Map(h));
      PublishInside(s, t, Map(h));
      PublishInside(e, t, Reply);
      assert Stepped(check, t, 3) == Stepped(Inside(s, t, Map(h)), t, 2) == Stepped(Inside(e, t, Reply), t, 1);
    }
  }

  /** The backend with the host of the call there. */
  function WithHostOf(s: State, call: Call): State {
    PublishEffect(s, call, CreateHost)
  }

  /** From the lock to the mapping check. */
  lemma PublishToCheck(s: State, t: nat) returns (n: nat)
    requires t in s.threads && s.threads[t].call.Publish? && s.threads[t].pc.Waiting? && LockFree(s, t)
    ensures var e := WithHostOf(s, s.threads[t].call);
            var k := Key(s.threads[t].call);
            k in e.hosts && Stepped(s, t, n) == Inside(e, t, CheckMapping(e.hosts[k].id))
  {
    var call := s.threads[t].call;
    assert Apply(s, Advance(t)) == Inside(s, t, FindHost);
    PublishInside(s, t, FindHost);
    if Key(call) in s.hosts {
      n := 2;
      assert Stepped(s, t, 2) == Stepped(Inside(s, t, FindHost), t, 1);
    } else {
      n := 3;
      PublishInside(s, t, CreateHost);
      assert Stepped(s, t, 3) == Stepped(Inside(s, t, FindHost), t, 2) == Stepped(Inside(s, t, CreateHost), t, 1);
    }
  }

  /** An undisturbed Publish: the host of its node and tenant is made if there is none. A single-node
      volume that is mapped to another host is refused; any other volume ends up mapped to that host,
      and nothing else changes. */
  lemma PublishAlone(s: State, t: nat) returns (n: nat)
    requires t in s.threads && s.threads[t].call.Publish? && s.threads[t].pc.Waiting? && LockFree(s, t)
    ensures var r, call := Run(s, Times(t, n)), s.threads[t].call;
            var k := HostKey(call.node, call.volume.tenant);
            && r.hosts == WithHost(s, k) && r.locks == s.locks
            && var refused := !call.multiNode && MappedElsewhere(s, call.volume, WithHost(s, k)[k].id);
               && r.threads == s.threads[t := Thread(call, if refused then Waiting else Done)]
               && r.mappings == s.mappings + if refused then {} else {Mapping(call.volume, WithHost(s, k)[k].id)}
  {
    var call := s.threads[t].call;
    var m := PublishToCheck(s, t);
    var made := WithHostOf(s, call);
    var h := made.hosts[Key(call)].id;
    var more, e := PublishFromCheck(made, t, h);
    n := m + more;
    SteppedAdds(s, t, m, more);
    SteppedRuns(s, t, n);
    assert MappedElsewhere(made, call.volume, h) == MappedElsewhere(s, call.volume, h);
  }

  /** The mappings without the volume's to the host of this name. */
  ghost function Unmapped(s: State, k: HostKey, volume: Volume): set<Mapping> {
    set m | m in s.mappings && !(m.volume == volume && k in s.hosts && m.host == s.hosts[k].id)
  }

  /** The host is managed, and only this volume is mapped to it, if any. */
  ghost predicate Empties(s: State, k: HostKey, volume: Volume) {
    && k in s.hosts && s.hosts[k].managed
    && forall m :: m in s.mappings && m.host == s.hosts[k].id ==> m.volume == volume
  }

  lemma DeletesOwnHost(s: State, call: Call)
    requires HostIds(s) && Key(call) in s.hosts
    ensures UnpublishEffect(s, call, Delete(s.hosts[Key(call)].id)).hosts == s.hosts - {Key(call)}
  {
  }

  lemma InspectDeletes(s: State, t: nat)
    requires t in s.threads && s.threads[t].call.Unpublish? && LockFree(s, t) && Idle(s, Key(s.threads[t].call))
    ensures var call := s.threads[t].call;
            var h := s.hosts[Key(call)].id;
            Stepped(Inside(s, t, Inspect), t, 2) == Outside(UnpublishEffect(s, call, Delete(h)), t, Done)
  {
    var h := s.hosts[Key(s.threads[t].call)].id;
    UnpublishInside(s, t, Inspect);
    UnpublishInside(s, t, Delete(h));
    assert Stepped(Inside(s, t, Inspect), t, 2) == Stepped(Inside(s, t, Delete(h)), t, 1);
  }

  /** From the lock on: the host goes exactly when it is managed and empty. */
  lemma UnpublishFromLock(s: State, t: nat) returns (n: nat, e: State)
    requires Safe(s) && t in s.threads && s.threads[t].call.Unpublish? && LockFree(s, t)
    ensures var k := Key(s.threads[t].call);
            && e == s.(hosts := if Idle(s, k) then s.hosts - {k} else s.hosts, missed := e.missed)
            && Stepped(Outside(s, t, TakeLock), t, n) == Outside(e, t, Done)
  {
    var call := s.threads[t].call;
    var k, o := Key(call), Outside(s, t, TakeLock);
    assert Apply(o, Advance(t)) == Inside(s, t, Inspect);
    if Idle(s, k) {
      InspectDeletes(s, t);
      DeletesOwnHost(s, call);
      n, e := 3, UnpublishEffect(s, call, Delete(s.hosts[k].id));
      assert Stepped(o, t, 3) == Stepped(Inside(s, t, Inspect), t, 2);
    } else {
      UnpublishInside(s, t, Inspect);
      n, e := 2, s;
      assert Stepped(o, t, 2) == Stepped(Inside(s, t, Inspect), t, 1);
    }
  }

  lemma UnpublishFinds(s: State, t: nat)
    requires Safe(s) && t in s.threads && s.threads[t].call.Unpublish? && s.threads[t].pc.FindMapping?
    ensures var call := s.threads[t].call;
            var k := HostKey(call.node, call.volume.tenant);
            UnpublishNext(s, call, FindMapping)
            == if k in s.hosts && Mapping(call.volume, s.hosts[k].id) in s.mappings
               then Unmap(s.hosts[k].id) else TakeLock
  {
    var call := s.threads[t].call;
    var k := HostKey(call.node, call.volume.tenant);
    FoundHostIsOwn(s, t);
    var found := MappedHosts(s, call.node, call.volume);
    if k in found { assert found == {k} && |{k}| == 1; } else { assert found == {}; }
  }

  lemma UnpublishUnmaps(s: State, t: nat) returns (n: nat)
    requires Safe(s) && t in s.threads && s.threads[t].call.Unpublish? && s.threads[t].pc.FindMapping?
    ensures var call := s.threads[t].call;
            var k := HostKey(call.node, call.volume.tenant);
            Stepped(s, t, n) == Outside(s.(mappings := Unmapped(s, k, call.volume)), t, TakeLock)
  {
    var call := s.threads[t].call;
    var k := HostKey(call.node, call.volume.tenant);
    UnpublishFinds(s, t);
    var s1 := Apply(s, Advance(t));
    if k in s.hosts && Mapping(call.volume, s.hosts[k].id) in s.mappings {
      var h := s.hosts[k].id;
      assert s1 == Outside(s, t, Unmap(h));
      assert Unmapped(s, k, call.volume) == s.mappings - {Mapping(call.volume, h)};
      assert s1.threads[t := Thread(call, TakeLock)] == s.threads[t := Thread(call, TakeLock)];
      n := 2;
      assert Stepped(s, t, 2) == Stepped(s1, t, 1);
    } else {
      n := 1;
      assert Unmapped(s, k, call.volume) == s.mappings;
      assert Stepped(s, t, 1) == Stepped(s1, t, 0);
    }
  }

  lemma UnmappedIdle(s: State, k: HostKey, volume: Volume)
    ensures Idle(s.(mappings := Unmapped(s, k, volume)), k) <==> Empties(s, k, volume)
  {
    var e := s.(mappings := Unmapped(s, k, volume));
    if k in s.hosts {
      assert HasMapping(e, s.hosts[k].id) <==>
             exists m :: m in s.mappings && m.host == s.hosts[k].id && m.volume != volume;
    }
  }

  lemma UnmappedSafe(s: State, k: HostKey, volume: Volume)
    requires Safe(s)
    ensures Safe(s.(mappings := Unmapped(s, k, volume)))
  {
    var e := s.(mappings := Unmapped(s, k, volume));
    forall u | u in e.threads ensures ThreadFact(e, e.threads[u]) {
      assert ThreadFact(s, s.threads[u]);
      assert forall h :: HasMapping(e, h) ==> HasMapping(s, h);
    }
  }

  /** An undisturbed Unpublish that has found its volume: the volume's mapping to the host of the node
      and its tenant goes and no other; the host goes exactly when it is managed and nothing else is
      mapped to it. */
  lemma UnpublishAlone(s: State, t: nat) returns (n: nat)
    requires Safe(s) && t in s.threads && s.threads[t].call.Unpublish? && s.threads[t].pc.FindMapping?
    requires LockFree(s, t)
    ensures var r, call := Run(s, Times(t, n)), s.threads[t].call;
            var k := HostKey(call.node, call.volume.tenant);
            && r.locks == s.locks && r.threads == s.threads[t := Thread(call, Done)]
            && r.mappings == Unmapped(s, k, call.volume)
            && r.hosts == if Empties(s, k, call.volume) then s.hosts - {k} else s.hosts
  {
    var call := s.threads[t].call;
    var k := HostKey(call.node, call.volume.tenant);
    var unmapped := s.(mappings := Unmapped(s, k, call.volume));
    UnmappedSafe(s, k, call.volume);
    UnmappedIdle(s, k, call.volume);
    var m := UnpublishUnmaps(s, t);
    var more, e := UnpublishFromLock(unmapped, t);
    n := m + more;
    SteppedAdds(s, t, m, more);
    SteppedRuns(s, t, n);
  }

  /** The lookup by the end of the name: none found ends the call, several leave it to be retried, and
      one, whichever it is, is the volume the call goes on with. The backend is not touched. */
  lemma LookUpExact(s: State, t: nat, existing: set<Volume>, v: Volume)
    requires t in s.threads && s.threads[t].call.Unpublish? && s.threads[t].pc.Waiting?
    ensures var r, call := Apply(s, LookUp(t, existing)), s.threads[t].call;
            && r.hosts == s.hosts && r.mappings == s.mappings && r.locks == s.locks
            && ((forall w :: w in existing ==> !EndsWith(w.name, call.id)) ==>
                  r.threads == s.threads[t := Thread(call, Done)])
            && (v in existing && EndsWith(v.name, call.id)
                && (forall w :: w in existing && EndsWith(w.name, call.id) ==> w == v) ==>
                  r.threads == s.threads[t := Thread(call.(volume := v), FindMapping)])
            && (v in existing && EndsWith(v.name, call.id) ==>
                  forall w :: w in existing && w != v && EndsWith(w.name, call.id) ==> r == s)
  {
    var call := s.threads[t].call;
    var found := Matching(existing, call.id);
    assert forall w :: w in existing && EndsWith(w.name, call.id) ==> w in found;
    if v in found {
      if w :| w in found && w != v {
        TwoAreTooMany(found, v, w);
      } else {
        assert found == {v} && |{v}| == 1;
      }
    }
  }

  // ---------------------------------------------------------------- locks and single-node volumes

  /** The lock is per node and tenant, as long as node ids hold no colon. */
  lemma LockPerHost(k: HostKey, l: HostKey)
    requires ':' !in k.node && ':' !in l.node
    ensures LockName(k) == LockName(l) <==> k == l
  {
    if LockName(k) == LockName(l) {
      assert LockName(k)[|k.node|] == ':' && LockName(l)[|l.node|] == ':';
      assert LockName(k)[..|k.node|] == k.node && LockName(l)[..|l.node|] == l.node;
      assert LockName(k)[|k.node| + 1..] == k.tenant && LockName(l)[|l.node| + 1..] == l.tenant;
    }
  }

  ghost predicate OneHost(s: State, v: Volume) {
    forall m, n :: m in s.mappings && n in s.mappings && m.volume == v && n.volume == v ==> m == n
  }

  predicate Publishing(th: Thread, v: Volume) {
    th.call.Publish? && th.call.volume == v && HoldsLock(th.pc)
  }

  /** At most one Publish of the volume is running. */
  ghost predicate OnePublish(s: State, v: Volume) {
    forall t, u ::
      t in s.threads && u in s.threads && Publishing(s.threads[t], v) && Publishing(s.threads[u], v) ==> t == u
  }

  predicate SingleNode(call: Call, v: Volume) {
    call.Publish? && call.volume == v ==> !call.multiNode
  }

  /** One host, and a Publish about to map is the only one to do so. */
  ghost predicate Exclusive(s: State, v: Volume) {
    && OneHost(s, v)
    && forall t :: t in s.threads ==>
         && SingleNode(s.threads[t].call, v)
         && (s.threads[t].call.Publish? && s.threads[t].call.volume == v && s.threads[t].pc.Map? ==>
               forall m :: m in s.mappings ==> m.volume != v)
  }

  lemma PublishExclusive(s: State, t: nat, v: Volume)
    requires Safe(s) && Exclusive(s, v) && OnePublish(s, v) && t in s.threads && s.threads[t].call.Publish?
    ensures Exclusive(PublishStep(s, t), v)
  {
    var s' := PublishStep(s, t);
    var Thread(call, pc) := s.threads[t];
    assert ThreadFact(s, s.threads[t]);
    forall u | u in s'.threads && s'.threads[u].call.Publish? && s'.threads[u].call.volume == v && s'.threads[u].pc.Map?
      ensures forall m :: m in s'.mappings ==> m.volume != v
    {
      if u != t && pc.Map? && call.volume == v { assert Publishing(s.threads[u], v) && Publishing(s.threads[t], v); }
    }
  }

  /** A step that maps nothing, and brings no Publish to the point of mapping. */
  lemma OtherExclusive(s: State, s': State, v: Volume)
    requires Exclusive(s, v) && s'.mappings <= s.mappings
    requires forall u :: u in s'.threads ==> SingleNode(s'.threads[u].call, v)
    requires forall u :: u in s'.threads && s'.threads[u].pc.Map? && s'.threads[u].call.Publish? ==>
               u in s.threads && s'.threads[u] == s.threads[u]
    ensures Exclusive(s', v)
  {
  }

  lemma UnpublishExclusive(s: State, t: nat, v: Volume)
    requires Safe(s) && Exclusive(s, v) && t in s.threads && s.threads[t].call.Unpublish?
    ensures Exclusive(UnpublishStep(s, t), v)
  {
    OtherExclusive(s, UnpublishStep(s, t), v);
  }

  lemma LookUpExclusive(s: State, t: nat, existing: set<Volume>, v: Volume)
    requires Safe(s) && Exclusive(s, v)
    ensures Exclusive(Apply(s, LookUp(t, existing)), v)
  {
    if t in s.threads && s.threads[t].call.Unpublish? && s.threads[t].pc.Waiting? {
      LookUpShape(s, t, Matching(existing, s.threads[t].call.id));
      OtherExclusive(s, Apply(s, LookUp(t, existing)), v);
    }
  }

  lemma ApplyExclusive(s: State, a: Action, v: Volume)
    requires Safe(s) && Exclusive(s, v) && OnePublish(s, v) && (a.Start? ==> SingleNode(a.call, v))
    ensures Exclusive(Apply(s, a), v)
  {
    if a.Advance? {
      if a.thread in s.threads {
        if s.threads[a.thread].call.Publish? { PublishExclusive(s, a.thread, v); }
        else { UnpublishExclusive(s, a.thread, v); }
      }
    } else if a.LookUp? {
      LookUpExclusive(s, a.thread, a.existing, v);
    } else {
      OtherExclusive(s, Apply(s, a), v);
    }
  }

  /** `ensure_map_exclusive`: a volume published for single-node access only, one Publish of it at a
      time, is never mapped to two hosts, whatever else is going on. */
  lemma {:induction false} SingleNodeOnce(s: State, actions: seq<Action>, v: Volume)
    requires Starting(s) && OneHost(s, v)
    requires forall i :: 0 <= i < |actions| && actions[i].Start? ==> SingleNode(actions[i].call, v)
    requires forall i :: 0 <= i < |actions| ==> OnePublish(Run(s, actions[..i]), v)
    ensures Exclusive(Run(s, actions), v)
    decreases |actions|
  {
    if actions != [] {
      var front := actions[..|actions| - 1];
      assert forall i :: 0 <= i < |front| ==> actions[i] == front[i] && actions[..i] == front[..i];
      SingleNodeOnce(s, front, v);
      RunSafe(s, front);
      ApplyExclusive(Run(s, front), actions[|actions| - 1], v);
    }
  }

  /** A Publish on its own host, the volume mapped nowhere, comes to the point of mapping. */
  lemma ComesToMap(s: State, t: nat)
    requires t in s.threads && s.threads[t].call.Publish? && s.threads[t].pc.Waiting? && LockFree(s, t)
    requires Key(s.threads[t].call) in s.hosts && forall m :: m in s.mappings ==> m.volume != s.threads[t].call.volume
    ensures Run(s, Times(t, 3)) == Inside(s, t, Map(s.hosts[Key(s.threads[t].call)].id))
  {
    var h := s.hosts[Key(s.threads[t].call)].id;
    assert Apply(s, Advance(t)) == Inside(s, t, FindHost);
    PublishInside(s, t, FindHost);
    PublishInside(s, t, CheckMapping(h));
    SteppedRuns(s, t, 3);
    assert Stepped(s, t, 3) == Stepped(Inside(s, t, FindHost), t, 2) == Stepped(Inside(s, t, CheckMapping(h)), t, 1);
  }

  lemma MapsBoth(s: State, t: nat, u: nat, h: nat, g: nat)
    requires t != u && t in s.threads && u in s.threads
    requires s.threads[t].call.Publish? && s.threads[t].pc == Map(h)
    requires s.threads[u].call.Publish? && s.threads[u].pc == Map(g)
    ensures Run(s, [Advance(t), Advance(u)]).mappings
            == s.mappings + {Mapping(s.threads[t].call.volume, h), Mapping(s.threads[u].call.volume, g)}
  {
    var both := [Advance(t), Advance(u)];
    assert both[..1] == [Advance(t)] && both[..1][..0] == [];
    var r := Apply(s, Advance(t));
    assert Run(s, both[..1]) == r && Run(s, both) == Apply(r, Advance(u));
    assert r.threads[u] == s.threads[u];
  }

  /** One at a time is needed: the check and the mapping are under the lock of the node, so two
      Publish calls of a single-node volume for two nodes can map it to both. */
  lemma OverlapMapsTwice(s: State, t: nat, u: nat) returns (actions: seq<Action>)
    requires t in s.threads && s.threads[t].call.Publish? && s.threads[t].pc.Waiting? && LockFree(s, t)
    requires u in s.threads && s.threads[u].call.Publish? && s.threads[u].pc.Waiting? && LockFree(s, u)
    requires var a, b := s.threads[t].call, s.threads[u].call;
             && a.volume == b.volume && Key(a) in s.hosts && Key(b) in s.hosts && LockName(Key(a)) != LockName(Key(b))
    requires forall m :: m in s.mappings ==> m.volume != s.threads[t].call.volume
    ensures var v := s.threads[t].call.volume;
            Run(s, actions).mappings == s.mappings + {Mapping(v, s.hosts[Key(s.threads[t].call)].id),
                                                      Mapping(v, s.hosts[Key(s.threads[u].call)].id)}
  {
    ComesToMap(s, t);
    var s1 := Run(s, Times(t, 3));
    ComesToMap(s1, u);
    var s2 := Run(s1, Times(u, 3));
    MapsBoth(s2, t, u, s.hosts[Key(s.threads[t].call)].id, s.hosts[Key(s.threads[u].call)].id);
    actions := Times(t, 3) + (Times(u, 3) + [Advance(t), Advance(u)]);
    RunConcat(s, Times(t, 3), Times(u, 3) + [Advance(t), Advance(u)]);
    RunConcat(s1, Times(u, 3), [Advance(t), Advance(u)]);
  }
}
