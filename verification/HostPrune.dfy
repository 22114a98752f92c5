/** The block-host protocol of plugins/block.py with auto-prune on: any number of
    ControllerPublishVolume and ControllerUnpublishVolume calls run interleaved, each backend
    call and each lock attempt being one atomic step. A call that fails gives up its lock and
    waits to be retried; a crash of the controller does that to every call. */
module HostPrune {
  import opened Strings

  /** A volume carries its tenant, so a call's host and its volume agree on the tenant. */
  datatype Volume = Volume(tenant: string, name: string)

  /** Hosts are named per node and tenant. */
  datatype HostKey = HostKey(node: string, tenant: string)

  /** `managed`: the host NQN starts with the driver's prefix. */
  datatype Host = Host(id: nat, managed: bool)

  datatype Mapping = Mapping(volume: Volume, host: nat)

  datatype Call =
    | Publish(node: string, volume: Volume, multiNode: bool)
    | Unpublish(node: string, volume: Volume, id: string)   // `volume`: the one found last, by its id

  datatype Pc =
    | Waiting                 // not begun, or failed and awaiting retry
    | FindHost | CreateHost | CheckMapping(host: nat) | Map(host: nat) | Reply
    | FindMapping | Unmap(host: nat) | TakeLock | Inspect | Delete(host: nat)
    | Done

  datatype Thread = Thread(call: Call, pc: Pc)

  /** `missed` remembers the hosts that were empty at the start, or when an Unpublish did not find
      its own volume, and that have been neither mapped nor deleted since. */
  datatype State = State(
    hosts: map<HostKey, Host>,
    mappings: set<Mapping>,
    locks: map<string, nat>,
    threads: map<nat, Thread>,
    nextId: nat,
    missed: set<HostKey>)

  datatype Action =
    | Start(thread: nat, call: Call)
    | Advance(thread: nat)
    | LookUp(thread: nat, existing: set<Volume>)   // an Unpublish looks for its volume among these
    | Fail(thread: nat)
    | Crash

  function Key(call: Call): HostKey {
    HostKey(call.node, call.volume.tenant)
  }

  function LockName(key: HostKey): string {
    key.node + ":" + key.tenant
  }

  predicate HoldsLock(pc: Pc) {
    !pc.Waiting? && !pc.FindMapping? && !pc.Unmap? && !pc.TakeLock? && !pc.Done?
  }

  predicate HasMapping(s: State, host: nat) {
    exists m :: m in s.mappings && m.host == host
  }

  /** The hosts of this name, of any tenant, that the volume is mapped to. */
  function MappedHosts(s: State, node: string, volume: Volume): set<HostKey> {
    set k | k in s.hosts && k.node == node && Mapping(volume, s.hosts[k].id) in s.mappings
  }

  // ---------------------------------------------------------------- steps

  /** Move a call on; leaving the locked section gives the lock up. */
  function Move(s: State, t: nat, pc: Pc): State
    requires t in s.threads
  {
    var th := s.threads[t];
    s.(threads := s.threads[t := th.(pc := pc)],
       locks := if HoldsLock(th.pc) && !HoldsLock(pc) then s.locks - {LockName(Key(th.call))} else s.locks)
  }

  /** `resource_locked(..., abort_on_error=True)`: on contention the call aborts. */
  function Lock(s: State, t: nat, pc: Pc): State
    requires t in s.threads
  {
    var name := LockName(Key(s.threads[t].call));
    if name in s.locks then Move(s, t, Waiting)
    else Move(s.(locks := s.locks[name := t]), t, pc)
  }

  /** What a Publish does to the backend. */
  function PublishEffect(s: State, call: Call, pc: Pc): State {
    match pc
    case CreateHost =>
      if Key(call) in s.hosts then s
      else s.(hosts := s.hosts[Key(call) := Host(s.nextId, true)], nextId := s.nextId + 1)
    case Map(h) => s.(mappings := s.mappings + {Mapping(call.volume, h)}, missed := s.missed - {Key(call)})
    case _ => s
  }

  /** Where it goes then. */
  ghost function PublishNext(s: State, call: Call, pc: Pc): Pc
    requires call.Publish?
  {
    var key := Key(call);
    match pc
    case FindHost => if key in s.hosts then CheckMapping(s.hosts[key].id) else CreateHost
    case CreateHost => CheckMapping(if key in s.hosts then s.hosts[key].id else s.nextId)
    case CheckMapping(h) =>
      if !call.multiNode && exists m :: m in s.mappings && m.volume == call.volume && m.host != h
      then Waiting
      else if Mapping(call.volume, h) in s.mappings then Reply
      else Map(h)
    case Map(h) => Reply
    case Reply => Done
    case _ => pc
  }

  ghost function PublishStep(s: State, t: nat): State
    requires t in s.threads && s.threads[t].call.Publish?
  {
    var Thread(call, pc) := s.threads[t];
    if pc.Waiting? then Lock(s, t, FindHost)
    else Move(PublishEffect(s, call, pc), t, PublishNext(s, call, pc))
  }

  /** What an Unpublish does to the backend. */
  function UnpublishEffect(s: State, call: Call, pc: Pc): State {
    match pc
    case Unmap(h) => s.(mappings := s.mappings - {Mapping(call.volume, h)})
    case Delete(h) =>
      s.(hosts := map k | k in s.hosts && s.hosts[k].id != h :: s.hosts[k], missed := s.missed - {Key(call)})
    case _ => s
  }

  ghost function UnpublishNext(s: State, call: Call, pc: Pc): Pc
    requires call.Unpublish?
  {
    var key := Key(call);
    match pc
    case FindMapping =>
      var found := MappedHosts(s, call.node, call.volume);
      if found == {} then TakeLock
      else if |found| > 1 then Waiting
      else var k :| k in found; Unmap(s.hosts[k].id)
    case Unmap(h) => TakeLock
    case Inspect =>
      if key !in s.hosts || HasMapping(s, s.hosts[key].id) || !s.hosts[key].managed then Done
      else Delete(s.hosts[key].id)
    case Delete(h) => Done
    case _ => pc
  }

  ghost function UnpublishStep(s: State, t: nat): State
    requires t in s.threads && s.threads[t].call.Unpublish?
  {
    var Thread(call, pc) := s.threads[t];
    if pc.TakeLock? then Lock(s, t, Inspect)
    else Move(UnpublishEffect(s, call, pc), t, UnpublishNext(s, call, pc))
  }

  /** The host is there, made by the driver, and without a mapping. */
  ghost predicate Idle(s: State, key: HostKey) {
    key in s.hosts && s.hosts[key].managed && !HasMapping(s, s.hosts[key].id)
  }

  ghost function Emptied(s: State, key: HostKey): set<HostKey> {
    if Idle(s, key) then {key} else {}
  }

  /** `volumes.one(name__endswith=...)`. */
  function Matching(existing: set<Volume>, id: string): set<Volume> {
    set v | v in existing && EndsWith(v.name, id)
  }

  /** None found: the call ends. More than one: it fails. Exactly one, its own or another of the same
      ending: it goes on with that one. */
  ghost function AfterLookUp(s: State, t: nat, found: set<Volume>): State
    requires t in s.threads && s.threads[t].call.Unpublish?
  {
    var call := s.threads[t].call;
    if found == {} then Move(s, t, Done).(missed := s.missed + Emptied(s, Key(call)))
    else if |found| > 1 then s
    else
      var v :| v in found;
      var next := call.(volume := v);
      s.(threads := s.threads[t := Thread(next, FindMapping)],
         missed := s.missed + if Key(next) == Key(call) then {} else Emptied(s, Key(call)))
  }

  /** One step of the system; an action that does not apply changes nothing. */
  ghost function Apply(s: State, a: Action): State {
    match a
    case Start(t, call) =>
      if t in s.threads then s else s.(threads := s.threads[t := Thread(call, Waiting)])
    case Advance(t) =>
      if t !in s.threads then s
      else if s.threads[t].call.Publish? then PublishStep(s, t) else UnpublishStep(s, t)
    case LookUp(t, existing) =>
      if t in s.threads && s.threads[t].call.Unpublish? && s.threads[t].pc.Waiting?
      then AfterLookUp(s, t, Matching(existing, s.threads[t].call.id))
      else s
    case Fail(t) =>
      if t in s.threads && !s.threads[t].pc.Done? then Move(s, t, Waiting) else s
    case Crash =>
      s.(locks := map[],
         threads := map t | t in s.threads ::
           if s.threads[t].pc.Done? then s.threads[t] else s.threads[t].(pc := Waiting))
  }

  ghost function Run(s: State, actions: seq<Action>): State {
    if actions == [] then s else Apply(Run(s, actions[..|actions| - 1]), actions[|actions| - 1])
  }

  // ---------------------------------------------------------------- safety

  ghost predicate HostIds(s: State) {
    && (forall k :: k in s.hosts ==> s.hosts[k].id < s.nextId)
    && (forall k, l :: k in s.hosts && l in s.hosts && s.hosts[k].id == s.hosts[l].id ==> k == l)
  }

  /** Every mapping is to a host that exists, of the volume's tenant. */
  ghost predicate NoDanglingMapping(s: State) {
    forall m :: m in s.mappings ==> exists k :: k in s.hosts && s.hosts[k].id == m.host && k.tenant == m.volume.tenant
  }

  ghost predicate LockTable(s: State) {
    && (forall t :: t in s.threads && HoldsLock(s.threads[t].pc) ==>
          LockName(Key(s.threads[t].call)) in s.locks && s.locks[LockName(Key(s.threads[t].call))] == t)
    && (forall n :: n in s.locks ==>
          && s.locks[n] in s.threads && HoldsLock(s.threads[s.locks[n]].pc)
          && LockName(Key(s.threads[s.locks[n]].call)) == n)
  }

  /** What a call remembers about its host is still true when it acts on it. */
  ghost predicate ThreadFact(s: State, th: Thread) {
    var key := Key(th.call);
    match th.pc
    case CheckMapping(h) => th.call.Publish? && key in s.hosts && s.hosts[key].id == h
    case Map(h) => th.call.Publish? && key in s.hosts && s.hosts[key].id == h
    case Delete(h) =>
      th.call.Unpublish? && key in s.hosts && s.hosts[key].id == h && s.hosts[key].managed && !HasMapping(s, h)
    case FindHost => th.call.Publish?
    case CreateHost => th.call.Publish?
    case Reply => th.call.Publish?
    case Inspect => th.call.Unpublish?
    case FindMapping => th.call.Unpublish?
    case Unmap(h) =>
      th.call.Unpublish? && h < s.nextId && forall k :: k in s.hosts && s.hosts[k].id == h ==> k == key
    case TakeLock => th.call.Unpublish?
    case _ => true
  }

  ghost predicate ThreadFacts(s: State) {
    forall t :: t in s.threads ==> ThreadFact(s, s.threads[t])
  }

  ghost predicate Safe(s: State) {
    HostIds(s) && NoDanglingMapping(s) && LockTable(s) && ThreadFacts(s)
  }

  lemma MoveLocks(s: State, t: nat, pc: Pc)
    requires LockTable(s) && t in s.threads && (HoldsLock(pc) ==> HoldsLock(s.threads[t].pc))
    ensures LockTable(Move(s, t, pc))
  {
    var s' := Move(s, t, pc);
    forall n | n in s'.locks
      ensures && s'.locks[n] in s'.threads && HoldsLock(s'.threads[s'.locks[n]].pc)
              && LockName(Key(s'.threads[s'.locks[n]].call)) == n
    {
      assert n in s.locks;
    }
  }

  lemma LockLocks(s: State, t: nat, pc: Pc)
    requires LockTable(s) && t in s.threads && !HoldsLock(s.threads[t].pc) && HoldsLock(pc)
    ensures LockTable(Lock(s, t, pc))
  {
    if LockName(Key(s.threads[t].call)) in s.locks { MoveLocks(s, t, Waiting); }
  }

  /** Two calls that hold the lock of one host are the same call. */
  lemma OneHolder(s: State, t: nat, u: nat)
    requires LockTable(s) && t in s.threads && u in s.threads
    requires HoldsLock(s.threads[t].pc) && HoldsLock(s.threads[u].pc)
    requires Key(s.threads[t].call) == Key(s.threads[u].call)
    ensures t == u
  {
  }

  lemma SameBackendFact(s: State, s': State, th: Thread)
    requires s'.hosts == s.hosts && s'.mappings == s.mappings && s'.nextId == s.nextId
    ensures ThreadFact(s', th) == ThreadFact(s, th)
  {
    assert forall h :: HasMapping(s', h) == HasMapping(s, h);
  }

  /** A step whose backend effect leads from s to e keeps safety, if the effect does and the
      call's next program counter fits. */
  lemma StepSafe(e: State, s': State, t: nat)
    requires HostIds(e) && NoDanglingMapping(e) && LockTable(s') && t in s'.threads
    requires s'.hosts == e.hosts && s'.mappings == e.mappings && s'.nextId == e.nextId
    requires s'.threads == e.threads[t := s'.threads[t]]
    requires forall u :: u in e.threads && u != t ==> ThreadFact(e, e.threads[u])
    requires ThreadFact(e, s'.threads[t])
    ensures Safe(s')
  {
    forall u | u in s'.threads ensures ThreadFact(s', s'.threads[u]) {
      SameBackendFact(e, s', s'.threads[u]);
    }
  }

  lemma PublishNextFact(s: State, call: Call, pc: Pc)
    requires call.Publish? && !pc.Waiting? && ThreadFact(s, Thread(call, pc))
    ensures var next := PublishNext(s, call, pc);
            && ThreadFact(PublishEffect(s, call, pc), Thread(call, next))
            && (HoldsLock(next) ==> HoldsLock(pc))
  {
  }

  lemma PublishSafe(s: State, t: nat)
    requires Safe(s) && t in s.threads && s.threads[t].call.Publish?
    ensures Safe(PublishStep(s, t))
  {
    var s' := PublishStep(s, t);
    var Thread(call, pc) := s.threads[t];
    assert ThreadFact(s, s.threads[t]);
    if pc.Waiting? {
      LockLocks(s, t, FindHost);
      StepSafe(s, s', t);
    } else {
      var e := PublishEffect(s, call, pc);
      if pc.Map? { MapSafe(s, t, pc.host); } else if pc.CreateHost? { CreateSafe(s, t); }
      PublishNextFact(s, call, pc);
      MoveLocks(e, t, PublishNext(s, call, pc));
      StepSafe(e, s', t);
    }
  }

  lemma CreateSafe(s: State, t: nat)
    requires Safe(s) && t in s.threads && s.threads[t].call.Publish?
    ensures var e := PublishEffect(s, s.threads[t].call, CreateHost);
            HostIds(e) && NoDanglingMapping(e) && ThreadFacts(e)
  {
    var e := PublishEffect(s, s.threads[t].call, CreateHost);
    forall m | m in e.mappings
      ensures exists k :: k in e.hosts && e.hosts[k].id == m.host && k.tenant == m.volume.tenant
    {
      var k :| k in s.hosts && s.hosts[k].id == m.host && k.tenant == m.volume.tenant;
      assert e.hosts[k] == s.hosts[k];
    }
    forall u | u in e.threads ensures ThreadFact(e, e.threads[u]) {
      CreateKeepsFact(s, e, s.threads[u]);
    }
  }

  lemma CreateKeepsFact(s: State, e: State, th: Thread)
    requires ThreadFact(s, th) && e.mappings == s.mappings && s.nextId <= e.nextId
    requires forall k :: k in s.hosts ==> k in e.hosts && e.hosts[k] == s.hosts[k]
    requires forall k :: k in e.hosts && k !in s.hosts ==> e.hosts[k].id == s.nextId
    ensures ThreadFact(e, th)
  {
    assert forall h :: HasMapping(e, h) == HasMapping(s, h);
  }

  lemma MapSafe(s: State, t: nat, h: nat)
    requires Safe(s) && t in s.threads && s.threads[t].call.Publish? && s.threads[t].pc == Map(h)
    ensures var e := PublishEffect(s, s.threads[t].call, Map(h));
            && HostIds(e) && NoDanglingMapping(e)
            && forall u :: u in e.threads && u != t ==> ThreadFact(e, e.threads[u])
  {
    var e := PublishEffect(s, s.threads[t].call, Map(h));
    var key := Key(s.threads[t].call);
    assert ThreadFact(s, s.threads[t]);
    forall m | m in e.mappings
      ensures exists k :: k in e.hosts && e.hosts[k].id == m.host && k.tenant == m.volume.tenant
    {
      if m !in s.mappings { assert e.hosts[key].id == m.host; }
    }
    forall u | u in e.threads && u != t ensures ThreadFact(e, e.threads[u]) {
      assert ThreadFact(s, s.threads[u]);
      if s.threads[u].pc.Delete? && s.threads[u].pc.host == h {
        OneHolder(s, t, u);
      } else {
        assert forall g :: g != h ==> HasMapping(e, g) == HasMapping(s, g);
      }
    }
  }

  lemma UnpublishNextFact(s: State, call: Call, pc: Pc)
    requires call.Unpublish? && !pc.TakeLock? && !pc.FindMapping? && ThreadFact(s, Thread(call, pc))
    ensures var next := UnpublishNext(s, call, pc);
            && ThreadFact(UnpublishEffect(s, call, pc), Thread(call, next))
            && (HoldsLock(next) ==> HoldsLock(pc))
  {
  }

  lemma FindMappingFact(s: State, t: nat)
    requires Safe(s) && t in s.threads && s.threads[t].call.Unpublish? && s.threads[t].pc.FindMapping?
    ensures var call := s.threads[t].call;
            var next := UnpublishNext(s, call, FindMapping);
            ThreadFact(s, Thread(call, next)) && !HoldsLock(next)
  {
    FoundHostIsOwn(s, t);
  }

  lemma UnpublishSafe(s: State, t: nat)
    requires Safe(s) && t in s.threads && s.threads[t].call.Unpublish?
    ensures Safe(UnpublishStep(s, t))
  {
    var s' := UnpublishStep(s, t);
    var Thread(call, pc) := s.threads[t];
    assert ThreadFact(s, s.threads[t]);
    if pc.TakeLock? {
      LockLocks(s, t, Inspect);
      StepSafe(s, s', t);
    } else {
      var e := UnpublishEffect(s, call, pc);
      if pc.Unmap? { UnmapSafe(s, t); } else if pc.Delete? { DeleteSafe(s, t, pc.host); }
      if pc.FindMapping? { FindMappingFact(s, t); } else { UnpublishNextFact(s, call, pc); }
      MoveLocks(e, t, UnpublishNext(s, call, pc));
      StepSafe(e, s', t);
    }
  }

  /** Looking a mapping up by host name alone finds only the host of the volume's tenant. */
  lemma FoundHostIsOwn(s: State, t: nat)
    requires Safe(s) && t in s.threads && s.threads[t].call.Unpublish?
    ensures MappedHosts(s, s.threads[t].call.node, s.threads[t].call.volume) <= {Key(s.threads[t].call)}
  {
    var call := s.threads[t].call;
    forall k | k in MappedHosts(s, call.node, call.volume) ensures k == Key(call) {
      var m := Mapping(call.volume, s.hosts[k].id);
      var l :| l in s.hosts && s.hosts[l].id == m.host && l.tenant == m.volume.tenant;
    }
  }

  lemma UnmapSafe(s: State, t: nat)
    requires Safe(s) && t in s.threads && s.threads[t].pc.Unmap?
    ensures var e := UnpublishEffect(s, s.threads[t].call, s.threads[t].pc);
            HostIds(e) && NoDanglingMapping(e) && ThreadFacts(e)
  {
    var e := UnpublishEffect(s, s.threads[t].call, s.threads[t].pc);
    forall u | u in e.threads ensures ThreadFact(e, e.threads[u]) {
      assert ThreadFact(s, s.threads[u]);
      assert forall h :: HasMapping(e, h) ==> HasMapping(s, h);
    }
  }

  lemma DeleteSafe(s: State, t: nat, h: nat)
    requires Safe(s) && t in s.threads && s.threads[t].pc == Delete(h)
    ensures var e := UnpublishEffect(s, s.threads[t].call, Delete(h));
            && HostIds(e) && NoDanglingMapping(e)
            && forall u :: u in e.threads && u != t ==> ThreadFact(e, e.threads[u])
  {
    var e := UnpublishEffect(s, s.threads[t].call, Delete(h));
    assert ThreadFact(s, s.threads[t]);
    forall m | m in e.mappings
      ensures exists k :: k in e.hosts && e.hosts[k].id == m.host && k.tenant == m.volume.tenant
    {
      var k :| k in s.hosts && s.hosts[k].id == m.host && k.tenant == m.volume.tenant;
      assert HasMapping(s, m.host);
      assert k in e.hosts;
    }
    forall u | u in e.threads && u != t ensures ThreadFact(e, e.threads[u]) {
      assert ThreadFact(s, s.threads[u]);
      if Key(s.threads[u].call) == Key(s.threads[t].call) && HoldsLock(s.threads[u].pc) {
        OneHolder(s, t, u);
      } else {
        DeleteKeepsFact(s, e, s.threads[u], h);
      }
    }
  }

  lemma DeleteKeepsFact(s: State, e: State, th: Thread, h: nat)
    requires ThreadFact(s, th) && e.mappings == s.mappings && e.nextId == s.nextId
    requires e.hosts == map k | k in s.hosts && s.hosts[k].id != h :: s.hosts[k]
    requires HoldsLock(th.pc) ==> Key(th.call) !in s.hosts || s.hosts[Key(th.call)].id != h
    ensures ThreadFact(e, th)
  {
    assert forall g :: HasMapping(e, g) == HasMapping(s, g);
  }

  lemma CrashSafe(s: State)
    requires Safe(s)
    ensures Safe(Apply(s, Crash))
  {
    var s' := Apply(s, Crash);
    forall u | u in s'.threads ensures ThreadFact(s', s'.threads[u]) {
      assert ThreadFact(s, s.threads[u]);
    }
  }

  lemma ApplySafe(s: State, a: Action)
    requires Safe(s)
    ensures Safe(Apply(s, a))
  {
    var s' := Apply(s, a);
    if a.Crash? {
      CrashSafe(s);
    } else if a.Advance? {
      if a.thread in s.threads {
        if s.threads[a.thread].call.Publish? { PublishSafe(s, a.thread); } else { UnpublishSafe(s, a.thread); }
      }
    } else if a.LookUp? {
      LookUpSafe(s, a.thread, a.existing);
    } else if a.thread in s.threads && s' != s {
      MoveLocks(s, a.thread, s'.threads[a.thread].pc);
      StepSafe(s, s', a.thread);
    } else if a.Start? && s' != s {
      StartSafe(s, a.thread, a.call);
    }
  }

  lemma LookUpShape(s: State, t: nat, found: set<Volume>)
    requires t in s.threads && s.threads[t].call.Unpublish? && s.threads[t].pc.Waiting?
    ensures var s' := AfterLookUp(s, t, found);
            && s'.hosts == s.hosts && s'.mappings == s.mappings && s'.nextId == s.nextId && s'.locks == s.locks
            && t in s'.threads && s'.threads == s.threads[t := s'.threads[t]] && s'.threads[t].call.Unpublish?
            && (s'.threads[t].pc.Waiting? || s'.threads[t].pc.Done? || s'.threads[t].pc.FindMapping?)
  {
    assert s.threads[t := s.threads[t]] == s.threads;
  }

  lemma RethreadLocks(s: State, s': State, t: nat)
    requires LockTable(s) && t in s.threads && t in s'.threads && s'.locks == s.locks
    requires s'.threads == s.threads[t := s'.threads[t]]
    requires !HoldsLock(s.threads[t].pc) && !HoldsLock(s'.threads[t].pc)
    ensures LockTable(s')
  {
  }

  lemma LookUpSafe(s: State, t: nat, existing: set<Volume>)
    requires Safe(s)
    ensures Safe(Apply(s, LookUp(t, existing)))
  {
    if t in s.threads && s.threads[t].call.Unpublish? && s.threads[t].pc.Waiting? {
      var found := Matching(existing, s.threads[t].call.id);
      var s' := AfterLookUp(s, t, found);
      LookUpShape(s, t, found);
      RethreadLocks(s, s', t);
      StepSafe(s, s', t);
    }
  }

  lemma StartSafe(s: State, t: nat, call: Call)
    requires Safe(s) && t !in s.threads
    ensures Safe(Apply(s, Start(t, call)))
  {
    var s' := Apply(s, Start(t, call));
    forall u | u in s'.threads ensures ThreadFact(s', s'.threads[u]) {
      if u != t { assert ThreadFact(s, s.threads[u]); }
    }
  }

  /** Before any call has been made. */
  ghost predicate Starting(s: State) {
    HostIds(s) && NoDanglingMapping(s) && s.locks == map[] && s.threads == map[]
  }

  /** The same, with the hosts that are empty remembered. */
  ghost predicate Initial(s: State) {
    Starting(s) && forall k :: Idle(s, k) <==> k in s.missed
  }

  lemma {:induction false} RunSafe(s: State, actions: seq<Action>)
    requires Starting(s)
    ensures Safe(Run(s, actions))
    decreases |actions|
  {
    if actions != [] {
      RunSafe(s, actions[..|actions| - 1]);
      ApplySafe(Run(s, actions[..|actions| - 1]), actions[|actions| - 1]);
    }
  }

  /** In every interleaving, a volume is only ever mapped to a host that exists, and a call
      about to delete a host deletes one without mappings. */
  lemma PruneSafety(s: State, actions: seq<Action>)
    requires Starting(s)
    ensures var r := Run(s, actions);
            && NoDanglingMapping(r)
            && forall t :: t in r.threads && r.threads[t].pc.Delete? ==> !HasMapping(r, r.threads[t].pc.host)
  {
    RunSafe(s, actions);
    var r := Run(s, actions);
    assert forall t :: t in r.threads ==> ThreadFact(r, r.threads[t]);
  }

  /** At most one call is inside the locked section of a host. */
  lemma PruneExclusion(s: State, actions: seq<Action>)
    requires Starting(s)
    ensures var r := Run(s, actions);
            forall t, u ::
              && t in r.threads && u in r.threads
              && HoldsLock(r.threads[t].pc) && HoldsLock(r.threads[u].pc)
              && Key(r.threads[t].call) == Key(r.threads[u].call)
              ==> t == u
  {
    RunSafe(s, actions);
  }

  // ---------------------------------------------------------------- completeness

  /** A call that will still map to the host, or still inspect it. */
  predicate Pending(th: Thread, key: HostKey) {
    Key(th.call) == key && !th.pc.Reply? && !th.pc.Done?
  }

  ghost predicate SomePending(s: State, key: HostKey) {
    exists t :: t in s.threads && Pending(s.threads[t], key)
  }

  /** An empty managed host has a pending call, or an Unpublish missed its volume there. */
  ghost predicate Covered(s: State) {
    forall k :: Idle(s, k) ==> SomePending(s, k) || k in s.missed
  }

  /** A step of call t keeps every empty host covered, if it empties none but those that t is
      pending on, and t stops being pending only on a host that is not empty. */
  lemma CoveredStep(s: State, s': State, t: nat)
    requires Covered(s) && t in s.threads && t in s'.threads
    requires forall k :: Idle(s', k) && k in s.missed ==> k in s'.missed
    requires s'.threads == s.threads[t := s'.threads[t]] && s'.threads[t].call == s.threads[t].call
    requires forall k :: Idle(s', k) && !Pending(s'.threads[t], k) ==> Idle(s, k)
    requires forall k :: Idle(s', k) && Pending(s.threads[t], k) ==> Pending(s'.threads[t], k)
    ensures Covered(s')
  {
    forall k | Idle(s', k) ensures SomePending(s', k) || k in s'.missed {
      if !Pending(s'.threads[t], k) && k !in s.missed {
        var u :| u in s.threads && Pending(s.threads[u], k);
        assert u in s'.threads && Pending(s'.threads[u], k);
      }
    }
  }

  /** When a Publish stops being pending its host has a mapping. */
  lemma PublishReplies(s: State, call: Call, pc: Pc)
    requires call.Publish? && !pc.Waiting? && ThreadFact(s, Thread(call, pc))
    requires Pending(Thread(call, pc), Key(call)) && !Pending(Thread(call, PublishNext(s, call, pc)), Key(call))
    ensures !Idle(PublishEffect(s, call, pc), Key(call))
  {
    assert Mapping(call.volume, pc.host) in PublishEffect(s, call, pc).mappings;
  }

  lemma PublishIdle(s: State, call: Call, pc: Pc, k: HostKey)
    requires call.Publish? && !pc.Waiting?
    requires Idle(PublishEffect(s, call, pc), k) && !Pending(Thread(call, PublishNext(s, call, pc)), k)
    ensures Idle(s, k)
  {
    assert forall m :: m in s.mappings ==> m in PublishEffect(s, call, pc).mappings;
  }

  lemma SameBackendIdle(s: State, s': State, k: HostKey)
    requires s'.hosts == s.hosts && s'.mappings == s.mappings
    ensures Idle(s', k) == Idle(s, k)
  {
    assert forall h :: HasMapping(s', h) == HasMapping(s, h);
  }

  lemma PublishCovered(s: State, t: nat)
    requires Safe(s) && Covered(s) && t in s.threads && s.threads[t].call.Publish?
    ensures Covered(PublishStep(s, t))
  {
    var s' := PublishStep(s, t);
    var Thread(call, pc) := s.threads[t];
    if pc.Waiting? {
      forall k ensures Idle(s', k) == Idle(s, k) { SameBackendIdle(s, s', k); }
    } else {
      assert ThreadFact(s, s.threads[t]);
      var e := PublishEffect(s, call, pc);
      forall k | Idle(s', k) && !Pending(s'.threads[t], k) ensures Idle(s, k) {
        SameBackendIdle(e, s', k);
        PublishIdle(s, call, pc, k);
      }
      forall k | Idle(s', k) && Pending(s.threads[t], k) ensures Pending(s'.threads[t], k) {
        SameBackendIdle(e, s', k);
        if !Pending(s'.threads[t], k) { PublishReplies(s, call, pc); }
      }
    }
    CoveredStep(s, s', t);
  }

  /** A step that does not leave its own call pending creates no empty host. */
  lemma UnpublishIdle(s: State, call: Call, pc: Pc, k: HostKey)
    requires HostIds(s) && call.Unpublish? && !pc.TakeLock? && ThreadFact(s, Thread(call, pc))
    requires Idle(UnpublishEffect(s, call, pc), k) && !Pending(Thread(call, UnpublishNext(s, call, pc)), k)
    ensures Idle(s, k)
  {
    var e := UnpublishEffect(s, call, pc);
    assert forall m :: m in s.mappings && m.host == s.hosts[k].id ==> m in e.mappings;
  }

  /** When an Unpublish ends its host is gone, mapped or not managed. */
  lemma UnpublishEnds(s: State, call: Call, pc: Pc)
    requires call.Unpublish? && !pc.TakeLock? && ThreadFact(s, Thread(call, pc))
    requires Pending(Thread(call, pc), Key(call)) && !Pending(Thread(call, UnpublishNext(s, call, pc)), Key(call))
    ensures !Idle(UnpublishEffect(s, call, pc), Key(call))
  {
  }

  lemma UnpublishCovered(s: State, t: nat)
    requires Safe(s) && Covered(s) && t in s.threads && s.threads[t].call.Unpublish?
    ensures Covered(UnpublishStep(s, t))
  {
    var s' := UnpublishStep(s, t);
    var Thread(call, pc) := s.threads[t];
    if pc.TakeLock? {
      forall k ensures Idle(s', k) == Idle(s, k) { SameBackendIdle(s, s', k); }
    } else {
      assert ThreadFact(s, s.threads[t]);
      var e := UnpublishEffect(s, call, pc);
      forall k | Idle(s', k) && !Pending(s'.threads[t], k) ensures Idle(s, k) {
        SameBackendIdle(e, s', k);
        UnpublishIdle(s, call, pc, k);
      }
      forall k | Idle(s', k) && Pending(s.threads[t], k) ensures Pending(s'.threads[t], k) {
        SameBackendIdle(e, s', k);
        if !Pending(s'.threads[t], k) { UnpublishEnds(s, call, pc); }
      }
    }
    CoveredStep(s, s', t);
  }

  lemma LookUpCovered(s: State, t: nat, existing: set<Volume>)
    requires Covered(s)
    ensures Covered(Apply(s, LookUp(t, existing)))
  {
    var s' := Apply(s, LookUp(t, existing));
    if s' != s {
      forall k | Idle(s', k) ensures SomePending(s', k) || k in s'.missed {
        SameBackendIdle(s, s', k);
        if k !in s.missed {
          var u :| u in s.threads && Pending(s.threads[u], k);
          assert u in s'.threads;
          assert u != t ==> s'.threads[u] == s.threads[u];
          assert k in s'.missed || Pending(s'.threads[u], k);
        }
      }
    }
  }

  lemma ApplyCovered(s: State, a: Action)
    requires Safe(s) && Covered(s)
    ensures Covered(Apply(s, a))
  {
    var s' := Apply(s, a);
    if a.Advance? {
      if a.thread in s.threads {
        if s.threads[a.thread].call.Publish? { PublishCovered(s, a.thread); } else { UnpublishCovered(s, a.thread); }
      }
    } else if a.LookUp? {
      LookUpCovered(s, a.thread, a.existing);
    } else {
      forall k | Idle(s', k) ensures SomePending(s', k) || k in s'.missed {
        assert Idle(s, k);
        if k !in s.missed {
          var u :| u in s.threads && Pending(s.threads[u], k);
          assert u in s'.threads;
          assert k in s'.missed || Pending(s'.threads[u], k);
        }
      }
    }
  }

  // ---------------------------------------------------------------- exactness

  /** What is remembered as missed is empty. */
  ghost predicate MissedIdle(s: State) {
    forall k :: k in s.missed ==> Idle(s, k)
  }

  lemma PublishMissed(s: State, t: nat)
    requires Safe(s) && MissedIdle(s) && t in s.threads && s.threads[t].call.Publish?
    ensures MissedIdle(PublishStep(s, t))
  {
    var s' := PublishStep(s, t);
    var Thread(call, pc) := s.threads[t];
    assert ThreadFact(s, s.threads[t]);
    forall k | k in s'.missed ensures Idle(s', k) {
      assert Idle(s, k);
      if pc.Map? {
        assert s.hosts[k].id != pc.host;
        assert HasMapping(s', s.hosts[k].id) == HasMapping(s, s.hosts[k].id);
      } else {
        assert s'.mappings == s.mappings;
      }
    }
  }

  lemma UnpublishMissed(s: State, t: nat)
    requires Safe(s) && MissedIdle(s) && t in s.threads && s.threads[t].call.Unpublish?
    ensures MissedIdle(UnpublishStep(s, t))
  {
    var s' := UnpublishStep(s, t);
    var Thread(call, pc) := s.threads[t];
    assert ThreadFact(s, s.threads[t]);
    forall k | k in s'.missed ensures Idle(s', k) {
      assert Idle(s, k);
      assert pc.Delete? ==> s.hosts[k].id != pc.host;
      assert forall h :: HasMapping(s', h) ==> HasMapping(s, h);
    }
  }

  lemma ApplyMissed(s: State, a: Action)
    requires Safe(s) && MissedIdle(s)
    ensures MissedIdle(Apply(s, a))
  {
    var s' := Apply(s, a);
    if a.Advance? {
      if a.thread in s.threads {
        if s.threads[a.thread].call.Publish? { PublishMissed(s, a.thread); } else { UnpublishMissed(s, a.thread); }
      }
    } else if a.LookUp? {
      LookUpMissed(s, a.thread, a.existing);
    } else {
      forall k ensures Idle(s', k) == Idle(s, k) { SameBackendIdle(s, s', k); }
    }
  }

  lemma LookUpMissed(s: State, t: nat, existing: set<Volume>)
    requires MissedIdle(s)
    ensures MissedIdle(Apply(s, LookUp(t, existing)))
  {
    var s' := Apply(s, LookUp(t, existing));
    if t in s.threads && s.threads[t].call.Unpublish? && s.threads[t].pc.Waiting? {
      LookUpShape(s, t, Matching(existing, s.threads[t].call.id));
      forall k | k in s'.missed ensures Idle(s', k) {
        SameBackendIdle(s, s', k);
        assert k in s.missed || k in Emptied(s, Key(s.threads[t].call));
      }
    }
  }

  lemma {:induction false} RunMissed(s: State, actions: seq<Action>)
    requires Initial(s)
    ensures MissedIdle(Run(s, actions))
    decreases |actions|
  {
    if actions != [] {
      RunSafe(s, actions[..|actions| - 1]);
      RunMissed(s, actions[..|actions| - 1]);
      ApplyMissed(Run(s, actions[..|actions| - 1]), actions[|actions| - 1]);
    }
  }

  lemma {:induction false} RunCovered(s: State, actions: seq<Action>)
    requires Initial(s)
    ensures Covered(Run(s, actions))
    decreases |actions|
  {
    if actions != [] {
      RunSafe(s, actions[..|actions| - 1]);
      RunCovered(s, actions[..|actions| - 1]);
      ApplyCovered(Run(s, actions[..|actions| - 1]), actions[|actions| - 1]);
    }
  }

  ghost predicate Quiet(s: State) {
    forall t :: t in s.threads ==> s.threads[t].pc.Done?
  }

  /** Whenever no call is running or awaiting retry, the locks are free, and a managed host is
      without a mapping if and only if it was so at the start, or when an Unpublish did not find
      its volume there, and nothing has mapped or deleted it since. */
  lemma PruneCompleteness(s: State, actions: seq<Action>)
    requires Initial(s) && Quiet(Run(s, actions))
    ensures var r := Run(s, actions);
            && r.locks == map[] && NoDanglingMapping(r)
            && forall k :: Idle(r, k) <==> k in r.missed
  {
    RunSafe(s, actions);
    RunCovered(s, actions);
    RunMissed(s, actions);
    var r := Run(s, actions);
    assert forall n :: n in r.locks ==> !HoldsLock(r.threads[r.locks[n]].pc);
    assert r.locks.Keys == {};
  }

  /** The lookup finds the one volume that the call is for. */
  predicate FindsOwn(s: State, a: Action)
    requires a.LookUp? && a.thread in s.threads
  {
    var call := s.threads[a.thread].call;
    call.Unpublish? && Matching(a.existing, call.id) == {call.volume}
  }

  lemma NothingMissed(s: State, a: Action)
    requires s.missed == {}
    requires a.LookUp? && a.thread in s.threads ==> !Idle(s, Key(s.threads[a.thread].call)) || FindsOwn(s, a)
    ensures Apply(s, a).missed == {}
  {
  }

  /** For which names the lookup finds the own volume, and nothing else: exactly when it exists and no
      other existing volume's name ends with the id. */
  lemma FindsOwnExactly(s: State, a: Action)
    requires a.LookUp? && a.thread in s.threads && s.threads[a.thread].call.Unpublish?
    requires EndsWith(s.threads[a.thread].call.volume.name, s.threads[a.thread].call.id)
    ensures var call := s.threads[a.thread].call;
            FindsOwn(s, a) <==>
            call.volume in a.existing && forall v :: v in a.existing && EndsWith(v.name, call.id) ==> v == call.volume
  {
    var call := s.threads[a.thread].call;
    var found := Matching(a.existing, call.id);
    if FindsOwn(s, a) {
      assert call.volume in found;
      assert forall v :: v in a.existing && EndsWith(v.name, call.id) ==> v in found;
    } else if call.volume in a.existing {
      assert call.volume in found;
      assert exists v :: v in found && v != call.volume;
    }
  }

  /** A retry that finds another volume, of another tenant, turns away from an empty host. */
  lemma OtherVolumeLeavesHost(s: State, t: nat, existing: set<Volume>, other: Volume)
    requires t in s.threads && s.threads[t].call.Unpublish? && s.threads[t].pc.Waiting?
    requires Matching(existing, s.threads[t].call.id) == {other} && other.tenant != s.threads[t].call.volume.tenant
    requires Idle(s, Key(s.threads[t].call))
    ensures var s', key := Apply(s, LookUp(t, existing)), Key(s.threads[t].call);
            Idle(s', key) && key in s'.missed && !Pending(s'.threads[t], key)
  {
    assert |{other}| == 1;
    SameBackendIdle(s, Apply(s, LookUp(t, existing)), Key(s.threads[t].call));
  }

  /** In particular, if every Unpublish found its volume, or found its host in use or gone, a
      managed host exists exactly as long as it has a mapping. */
  lemma {:induction false} FoundVolumesLeaveNothing(s: State, actions: seq<Action>)
    requires Initial(s) && s.missed == {}
    requires forall i :: 0 <= i < |actions| && actions[i].LookUp? ==>
               var before := Run(s, actions[..i]);
               actions[i].thread in before.threads ==>
                 !Idle(before, Key(before.threads[actions[i].thread].call)) || FindsOwn(before, actions[i])
    ensures Run(s, actions).missed == {}
    ensures Quiet(Run(s, actions)) ==> forall k :: !Idle(Run(s, actions), k)
    decreases |actions|
  {
    if actions != [] {
      var front := actions[..|actions| - 1];
      assert forall i :: 0 <= i < |front| ==> actions[i] == front[i] && actions[..i] == front[..i];
      FoundVolumesLeaveNothing(s, front);
      NothingMissed(Run(s, front), actions[|actions| - 1]);
    }
    if Quiet(Run(s, actions)) { PruneCompleteness(s, actions); }
  }

  lemma RunAppend(s: State, actions: seq<Action>, a: Action)
    ensures Run(s, actions + [a]) == Apply(Run(s, actions), a)
  {
    assert (actions + [a])[..|actions|] == actions;
  }

  /** One managed host, one Unpublish of the only volume ever mapped to it. */
  function Lone(node: string, volume: Volume, pc: Pc, mapped: bool): State {
    var key := HostKey(node, volume.tenant);
    State(map[key := Host(0, true)], if mapped then {Mapping(volume, 0)} else {}, map[],
          map[0 := Thread(Unpublish(node, volume, volume.name), pc)], 1, {})
  }

  lemma LoneUnmaps(node: string, volume: Volume)
    ensures Apply(Lone(node, volume, Waiting, true), LookUp(0, {volume})) == Lone(node, volume, FindMapping, true)
    ensures Apply(Lone(node, volume, FindMapping, true), Advance(0)) == Lone(node, volume, Unmap(0), true)
    ensures Apply(Lone(node, volume, Unmap(0), true), Advance(0)) == Lone(node, volume, TakeLock, false)
  {
    LoneFinds(node, volume);
    LoneLooksUp(node, volume);
    assert {Mapping(volume, 0)} - {Mapping(volume, 0)} == {};
  }

  lemma LoneLooksUp(node: string, volume: Volume)
    ensures Apply(Lone(node, volume, Waiting, true), LookUp(0, {volume})) == Lone(node, volume, FindMapping, true)
  {
    var s := Lone(node, volume, Waiting, true);
    LookUpOwn(s, 0, {volume});
    assert s.threads[0 := Thread(Unpublish(node, volume, volume.name), FindMapping)]
           == map[0 := Thread(Unpublish(node, volume, volume.name), FindMapping)];
  }

  /** A lookup that finds the own volume only moves the call on. */
  lemma LookUpOwn(s: State, t: nat, existing: set<Volume>)
    requires t in s.threads && s.threads[t].call.Unpublish? && s.threads[t].pc.Waiting?
    requires existing == {s.threads[t].call.volume}
    requires EndsWith(s.threads[t].call.volume.name, s.threads[t].call.id)
    ensures Apply(s, LookUp(t, existing))
            == s.(threads := s.threads[t := Thread(s.threads[t].call, FindMapping)])
  {
    var call := s.threads[t].call;
    assert Matching(existing, call.id) == {call.volume} && |{call.volume}| == 1;
    assert s.missed + {} == s.missed;
  }

  lemma LoneFinds(node: string, volume: Volume)
    ensures var call := Unpublish(node, volume, volume.name);
            UnpublishNext(Lone(node, volume, FindMapping, true), call, FindMapping) == Unmap(0)
  {
    var s := Lone(node, volume, FindMapping, true);
    assert MappedHosts(s, node, volume) == {HostKey(node, volume.tenant)};
  }

  lemma LoneFails(node: string, volume: Volume)
    ensures Apply(Lone(node, volume, TakeLock, false), Fail(0)) == Lone(node, volume, Waiting, false)
  {
  }

  lemma LoneMisses(node: string, volume: Volume)
    ensures Apply(Lone(node, volume, Waiting, false), LookUp(0, {}))
            == Lone(node, volume, Done, false).(missed := {HostKey(node, volume.tenant)})
  {
    var s := Lone(node, volume, Waiting, false);
    assert Matching({}, volume.name) == {};
    assert Idle(s, HostKey(node, volume.tenant));
    assert {} + Emptied(s, HostKey(node, volume.tenant)) == {HostKey(node, volume.tenant)};
  }

  lemma LoneRun(node: string, volume: Volume) returns (actions: seq<Action>)
    ensures Run(Lone(node, volume, Waiting, true).(threads := map[]), actions)
            == Lone(node, volume, Done, false).(missed := {HostKey(node, volume.tenant)})
  {
    var s := Lone(node, volume, Waiting, true).(threads := map[]);
    var start := [Start(0, Unpublish(node, volume, volume.name))];
    var unmapped := start + [LookUp(0, {volume})] + [Advance(0)] + [Advance(0)];
    LoneUnmaps(node, volume);
    LoneFails(node, volume);
    LoneMisses(node, volume);
    assert Run(s, start) == Lone(node, volume, Waiting, true) by {
      assert [] + start == start;
      RunAppend(s, [], start[0]);
    }
    RunAppend(s, start, LookUp(0, {volume}));
    RunAppend(s, start + [LookUp(0, {volume})], Advance(0));
    RunAppend(s, start + [LookUp(0, {volume})] + [Advance(0)], Advance(0));
    RunAppend(s, unmapped, Fail(0));
    RunAppend(s, unmapped + [Fail(0)], LookUp(0, {}));
    actions := unmapped + [Fail(0)] + [LookUp(0, {})];
  }

  /** The exception is real: an Unpublish that unmapped, failed, and on retry no longer finds
      its volume leaves an empty managed host behind with no call left to remove it. */
  lemma MissedVolumeLeavesHost(node: string, volume: Volume)
    ensures exists s, actions :: Initial(s) && Quiet(Run(s, actions))
              && Idle(Run(s, actions), HostKey(node, volume.tenant))
  {
    var key := HostKey(node, volume.tenant);
    var s := Lone(node, volume, Waiting, true).(threads := map[]);
    assert Initial(s) by {
      assert Mapping(volume, 0) in s.mappings && s.hosts[key].id == 0;
    }
    var actions := LoneRun(node, volume);
    assert Idle(Run(s, actions), key) && Quiet(Run(s, actions));
  }
}
