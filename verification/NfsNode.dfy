/** NodePublishVolume and NodeUnpublishVolume of plugins/nfs.py at one target path: a stack of
    tmpfs layers that hold the meta record, with the NFS export on top. */
module NfsNode {
  import Histories
  import NfsOptions
  import opened Wrappers

  /** The meta record; `bucket`: it names the bucket of a COSI volume. */
  datatype Meta = Meta(volumeId: string, ephemeral: bool, bucket: bool, mtls: bool)

  /** Processing the record deletes the volume. */
  predicate Deletes(record: Option<Meta>) {
    record.Some? && record.value.ephemeral && !record.value.bucket
  }

  /** A mount at the target path; `meta` is the meta file its filesystem shows, if any. */
  datatype Layer =
    | Tmpfs(meta: Option<Meta>)
    | Export(device: string, readonly: bool, meta: Option<Meta>)

  // ---------------------------------------------------------------- reading the mount table

  datatype Mount = Mount(point: string, layer: Layer)

  /** The mounts at one path, in mount order. */
  function StackAt(table: seq<Mount>, target: string): seq<Layer> {
    if table == [] then []
    else
      var rest := StackAt(table[..|table| - 1], target);
      var m := table[|table| - 1];
      if m.point == target then rest + [m.layer] else rest
  }

  function VolumeLayer(stack: seq<Layer>): Option<Layer> {
    if stack == [] then None
    else if stack[|stack| - 1].Export? then Some(stack[|stack| - 1])
    else VolumeLayer(stack[..|stack| - 1])
  }

  /** utils.get_volume_mount: the last matching entry that is not tmpfs. */
  method GetVolumeMount(table: seq<Mount>, target: string) returns (found: Option<Layer>)
    ensures found == VolumeLayer(StackAt(table, target))
    ensures found.None? <==> forall i :: 0 <= i < |table| && table[i].point == target ==> table[i].layer.Tmpfs?
    ensures found.Some? ==>
              exists i :: 0 <= i < |table| && table[i] == Mount(target, found.value) && found.value.Export?
                          && forall j :: i < j < |table| && table[j].point == target ==> table[j].layer.Tmpfs?
  {
    found := None;
    ghost var at := 0;
    for i := 0 to |table|
      invariant found == VolumeLayer(StackAt(table[..i], target))
      invariant found.None? ==> forall j :: 0 <= j < i && table[j].point == target ==> table[j].layer.Tmpfs?
      invariant found.Some? ==>
                  && 0 <= at < i && table[at] == Mount(target, found.value) && found.value.Export?
                  && forall j :: at < j < i && table[j].point == target ==> table[j].layer.Tmpfs?
    {
      var m := table[i];
      ghost var before := StackAt(table[..i], target);
      assert table[..i + 1][..i] == table[..i];
      if m.point == target {
        assert (before + [m.layer])[..|before|] == before;
        if m.layer.Export? {
          found, at := Some(m.layer), i;
        }
      }
    }
    assert table[..|table|] == table;
  }

  /** A tmpfs is never taken for the volume, and a volume under tmpfs layers is still found. */
  lemma {:induction false} VolumeLayerCorrect(stack: seq<Layer>)
    ensures VolumeLayer(stack).None? <==> forall i :: 0 <= i < |stack| ==> stack[i].Tmpfs?
    ensures VolumeLayer(stack).Some? ==> VolumeLayer(stack).value in stack && VolumeLayer(stack).value.Export?
    decreases |stack|
  {
    if stack != [] { VolumeLayerCorrect(stack[..|stack| - 1]); }
  }

  // ---------------------------------------------------------------- the target path

  /** `device.partition(":")[2]`. */
  function PathPart(device: string): string {
    if device == "" then "" else if device[0] == ':' then device[1..] else PathPart(device[1..])
  }

  datatype Fault = Works | Fails | Killed

  /** What happens at each step of NodePublishVolume that can go wrong. */
  datatype PublishFaults = PublishFaults(
    provision: Fault, attach: Fault, lazyUmount: Fault, mkdir: Fault, mountTmpfs: Fault,
    storeMeta: Fault, mtlsFlags: Fault, mount: Fault, dropMeta: Fault, dropTmpfs: Fault)

  datatype UmountResult = Unmounted | TimedOut | Refused

  datatype UnpublishFaults = UnpublishFaults(
    umount: nat -> UmountResult, lazyUmount: nat -> bool,
    process: bool, removeMeta: bool, umountTmpfs: bool, dropCredentials: bool, rmdir: bool)

  datatype Outcome = Ok | Conflict | Failed | Dead

  /** What is asked for; `mode`: the mount, with all its flags, will be read-only. */
  datatype Request = Request(spec: string, readonly: bool, mode: bool, meta: Meta)

  /** The request with the mount flags of the capability, or else of the context. */
  function RequestWith(spec: string, readonly: bool, flags: seq<string>, meta: Meta): Request {
    Request(spec, readonly, NfsOptions.MountedReadonly(readonly, flags), meta)
  }

  datatype Call =
    | Publish(request: Request, faults: PublishFaults)
    | Unpublish(attempts: int, forceLazy: bool, unpublishFaults: UnpublishFaults)

  /** Effects worth checking: where the meta file went, and whether a volume was mounted when
      something was deleted. */
  datatype Event =
    | WroteMeta(onTmpfs: bool)
    | RemovedMeta(volumeMounted: bool)
    | DeletedVolume(volumeMounted: bool)
    | RemovedDir(volumeMounted: bool)

  predicate Harmless(e: Event) {
    match e
    case WroteMeta(onTmpfs) => onTmpfs
    case RemovedMeta(volumeMounted) => !volumeMounted
    case DeletedVolume(volumeMounted) => !volumeMounted
    case RemovedDir(volumeMounted) => !volumeMounted
  }

  ghost predicate NoFaults(f: UnpublishFaults) {
    && (forall i :: f.umount(i) == Unmounted)
    && f.process && f.removeMeta && f.umountTmpfs && f.dropCredentials && f.rmdir
  }

  // ---------------------------------------------------------------- the target as a value

  /** `volume`: the backend volume of an ephemeral mount exists; `base`: a meta file of the directory
      itself. */
  datatype State = State(volume: bool, dir: bool, base: Option<Meta>, stack: seq<Layer>)

  /** Any number of tmpfs layers, with at most one export, on top. */
  predicate Shape(stack: seq<Layer>) {
    forall i :: 0 <= i < |stack| - 1 ==> stack[i].Tmpfs?
  }

  predicate WellFormed(s: State) {
    && Shape(s.stack)
    && (s.stack != [] || s.base.Some? ==> s.dir)
    // an export sits directly on the record of the call that mounted it
    && (|s.stack| >= 2 && s.stack[|s.stack| - 1].Export? ==> s.stack[|s.stack| - 2].meta.Some?)
  }

  /** The stack without a volume layer on top. */
  function Bare(stack: seq<Layer>): seq<Layer> {
    if stack != [] && stack[|stack| - 1].Export? then stack[..|stack| - 1] else stack
  }

  /** The record seen at the target path once no volume is mounted there. */
  function Seen(stack: seq<Layer>, base: Option<Meta>): Option<Meta> {
    if stack == [] then base else stack[|stack| - 1].meta
  }

  /** At most one tmpfs layer, and no record in the directory under it. */
  predicate Simple(stack: seq<Layer>, base: Option<Meta>) {
    |stack| <= 1 && (base.None? || stack == [])
  }

  lemma ShapeVolume(stack: seq<Layer>)
    requires Shape(stack)
    ensures VolumeLayer(stack) ==
            if stack != [] && stack[|stack| - 1].Export? then Some(stack[|stack| - 1]) else None
  {
    VolumeLayerCorrect(stack);
  }

  // ---------------------------------------------------------------- what a publish does

  /** CreateVolume makes a volume for an ephemeral mount, unless it is bound to a bucket. */
  predicate Makes(meta: Meta, faults: PublishFaults) {
    meta.ephemeral && !meta.bucket && faults.provision.Works?
  }

  predicate Provisions(meta: Meta, faults: PublishFaults) {
    meta.ephemeral ==> faults.provision.Works? && faults.attach.Works?
  }

  /** The look at what is mounted already: the call is decided, or the target is made free. */
  function Decision(dir: bool, stack: seq<Layer>, r: Request, faults: PublishFaults): Option<Outcome> {
    if !dir || stack == [] || stack[|stack| - 1].Tmpfs? then None
    else
      var top := stack[|stack| - 1];
      if top.device == r.spec then Some(if top.readonly != r.readonly then Conflict else Ok)
      else if PathPart(top.device) != PathPart(r.spec) then Some(Conflict)
      else if faults.lazyUmount.Works? then None   // a stale entry of the same export
      else Some(if faults.lazyUmount.Killed? then Dead else Failed)
  }

  predicate MountFails(faults: PublishFaults) {
    faults.mtlsFlags.Fails? || (faults.mtlsFlags.Works? && faults.mount.Fails?)
  }

  /** Every step from the directory to the export works. */
  predicate MountsFresh(faults: PublishFaults) {
    && faults.mkdir.Works? && faults.mountTmpfs.Works? && faults.storeMeta.Works?
    && faults.mtlsFlags.Works? && faults.mount.Works?
  }

  /** What the cleanup makes of the layers it finds. */
  function CleanedUp(stack: seq<Layer>, faults: PublishFaults): seq<Layer>
    requires stack != []
  {
    if !faults.dropMeta.Works? then stack
    else if !faults.dropTmpfs.Works? then stack[..|stack| - 1] + [Tmpfs(None)]
    else stack[..|stack| - 1]
  }

  /** The layers under the export after the mounting half of NodePublishVolume. */
  function Layers(stack: seq<Layer>, meta: Meta, faults: PublishFaults): seq<Layer> {
    if !faults.mkdir.Works? || !faults.mountTmpfs.Works? then stack
    else if !faults.storeMeta.Works? then stack + [Tmpfs(None)]
    else if MountFails(faults) then CleanedUp(stack + [Tmpfs(Some(meta))], faults)
    else stack + [Tmpfs(Some(meta))]
  }

  function ExportOf(r: Request): Layer {
    Export(r.spec, r.mode, None)
  }

  /** The call goes on to mount. */
  predicate GoesOn(s: State, r: Request, faults: PublishFaults) {
    Provisions(r.meta, faults) && Decision(s.dir, s.stack, r, faults).None?
  }

  function AfterPublish(s: State, r: Request, faults: PublishFaults): State {
    var volume := s.volume || Makes(r.meta, faults);
    if !GoesOn(s, r, faults) then s.(volume := volume)
    else
      var layers := Layers(Bare(s.stack), r.meta, faults);
      State(volume, s.dir || faults.mkdir.Works?, s.base,
            if MountsFresh(faults) then layers + [ExportOf(r)] else layers)
  }

  /** ALREADY_EXISTS. */
  predicate Conflicts(s: State, r: Request, faults: PublishFaults) {
    Provisions(r.meta, faults) && Decision(s.dir, s.stack, r, faults) == Some(Conflict)
  }

  predicate Succeeds(s: State, r: Request, faults: PublishFaults) {
    && Provisions(r.meta, faults)
    && match Decision(s.dir, s.stack, r, faults)
       case None => MountsFresh(faults)
       case Some(outcome) => outcome.Ok?
  }

  /** At most one tmpfs layer is added, and none when a failed mount is cleaned up; a record that is
      added is the call's own. */
  lemma LayersBound(stack: seq<Layer>, meta: Meta, faults: PublishFaults)
    ensures var layers := Layers(stack, meta, faults);
            layers == stack || layers == stack + [Tmpfs(None)] || layers == stack + [Tmpfs(Some(meta))]
    ensures faults.storeMeta.Works? && MountFails(faults) && faults.dropMeta.Works? && faults.dropTmpfs.Works?
            ==> Layers(stack, meta, faults) == stack
    ensures Layers(stack, meta, faults) == stack + [Tmpfs(Some(meta))] <==> Records(faults)
  {
    var recorded := stack + [Tmpfs(Some(meta))];
    assert recorded[..|recorded| - 1] == stack;
    assert stack + [Tmpfs(None)] != recorded by {
      assert (stack + [Tmpfs(None)])[|stack|] != recorded[|stack|];
    }
    assert |recorded| == |stack| + 1;
  }

  /** The record is written, and not cleaned up again. */
  predicate Records(faults: PublishFaults) {
    && faults.mkdir.Works? && faults.mountTmpfs.Works? && faults.storeMeta.Works?
    && !(MountFails(faults) && faults.dropMeta.Works?)
  }

  lemma BareShape(stack: seq<Layer>)
    requires Shape(stack)
    ensures AllTmpfs(Bare(stack)) && (Bare(stack) == stack <==> AllTmpfs(stack))
  {
  }

  predicate AllTmpfs(stack: seq<Layer>) {
    forall i :: 0 <= i < |stack| ==> stack[i].Tmpfs?
  }

  lemma LayersTmpfs(stack: seq<Layer>, meta: Meta, faults: PublishFaults)
    requires AllTmpfs(stack)
    ensures AllTmpfs(Layers(stack, meta, faults))
    ensures Records(faults) ==>
              var layers := Layers(stack, meta, faults); layers != [] && layers[|layers| - 1].meta == Some(meta)
  {
    LayersBound(stack, meta, faults);
  }

  lemma OnTmpfs(layers: seq<Layer>, top: Layer)
    requires AllTmpfs(layers) && layers != [] && layers[|layers| - 1].meta.Some?
    ensures WellFormed(State(true, true, None, layers + [top]))
  {
    var all := layers + [top];
    assert all[|all| - 2] == layers[|layers| - 1];
  }

  /** A publish stopped anywhere keeps the shape of the target. */
  lemma PublishKeepsShape(s: State, r: Request, faults: PublishFaults)
    requires WellFormed(s)
    ensures WellFormed(AfterPublish(s, r, faults))
  {
    if GoesOn(s, r, faults) {
      BareShape(s.stack);
      LayersTmpfs(Bare(s.stack), r.meta, faults);
      LayersBound(Bare(s.stack), r.meta, faults);
      if MountsFresh(faults) { OnTmpfs(Layers(Bare(s.stack), r.meta, faults), ExportOf(r)); }
    }
  }

  /** What a publish means: success puts the requested export on top, over the call's own record if
      it mounted anew; otherwise only a stale volume may go and one layer come. */
  lemma PublishMeaning(s: State, r: Request, faults: PublishFaults)
    requires WellFormed(s)
    ensures var t := AfterPublish(s, r, faults);
            && t.base == s.base && (s.dir ==> t.dir)
            && (Succeeds(s, r, faults) ==>
                  && t.dir && t.stack != [] && t.stack[|t.stack| - 1].Export? && t.stack[|t.stack| - 1].device == r.spec
                  && if GoesOn(s, r, faults)
                     then t.stack == Bare(s.stack) + [Tmpfs(Some(r.meta)), ExportOf(r)]
                     else t.stack == s.stack && t.stack[|t.stack| - 1].readonly == r.readonly)
            && (!Succeeds(s, r, faults) ==>
                  t.stack == s.stack || (Bare(s.stack) <= t.stack && |t.stack| <= |Bare(s.stack)| + 1))
  {
    var t := AfterPublish(s, r, faults);
    if GoesOn(s, r, faults) {
      LayersBound(Bare(s.stack), r.meta, faults);
      if MountsFresh(faults) {
        assert Bare(s.stack) + [Tmpfs(Some(r.meta))] + [ExportOf(r)]
               == Bare(s.stack) + [Tmpfs(Some(r.meta)), ExportOf(r)];
      }
    }
  }

  /** With its export on top, a publish is decided by the mode alone. */
  lemma OnTop(t: State, r: Request, faults: PublishFaults)
    requires t.dir && t.stack != [] && t.stack[|t.stack| - 1].Export? && t.stack[|t.stack| - 1].device == r.spec
    requires Provisions(r.meta, faults)
    ensures Succeeds(t, r, faults) <==> t.stack[|t.stack| - 1].readonly == r.readonly
    ensures Decision(t.dir, t.stack, r, faults) ==
            Some(if t.stack[|t.stack| - 1].readonly != r.readonly then Conflict else Ok)
  {
  }

  /** Repeating a publish that succeeded succeeds if and only if it mounted nothing, or mounted in the
      requested mode; otherwise the repetition is a conflict. */
  lemma RepeatedPublish(s: State, r: Request, faults: PublishFaults, again: PublishFaults)
    requires WellFormed(s) && Succeeds(s, r, faults) && Provisions(r.meta, again)
    ensures var t := AfterPublish(s, r, faults);
            && (Succeeds(t, r, again) <==> !GoesOn(s, r, faults) || r.mode == r.readonly)
            && (!Succeeds(t, r, again) <==> Decision(t.dir, t.stack, r, again) == Some(Conflict))
  {
    PublishMeaning(s, r, faults);
    OnTop(AfterPublish(s, r, faults), r, again);
  }

  /** In terms of the flags: the mode is the requested one if and only if the flags that are passed
      on ask for none, or for that one. */
  lemma RepeatedWithFlags(
    s: State, spec: string, readonly: bool, flags: seq<string>, meta: Meta,
    faults: PublishFaults, again: PublishFaults)
    requires var r := RequestWith(spec, readonly, flags, meta);
             WellFormed(s) && Succeeds(s, r, faults) && Provisions(meta, again)
    ensures var r := RequestWith(spec, readonly, flags, meta);
            var asked := NfsOptions.AskedMode(NfsOptions.PassedFlags(flags));
            Succeeds(AfterPublish(s, r, faults), r, again) <==>
            !GoesOn(s, r, faults) || asked.None? || asked.value == readonly
  {
    RepeatedPublish(s, RequestWith(spec, readonly, flags, meta), faults, again);
    NfsOptions.ModeAsRequested(readonly, flags);
  }

  /** The failing input: `ro` among the mount flags of a request that is not read-only. */
  lemma ReadonlyFlagConflicts(spec: string, meta: Meta, faults: PublishFaults)
    requires Provisions(meta, faults) && MountsFresh(faults)
    ensures var r := RequestWith(spec, false, ["ro"], meta);
            var s := State(false, false, None, []);
            Succeeds(s, r, faults) && !Succeeds(AfterPublish(s, r, faults), r, faults)
  {
    NfsOptions.ReadonlyFlagMounts();
    RepeatedPublish(State(false, false, None, []), RequestWith(spec, false, ["ro"], meta), faults, faults);
  }

  // ---------------------------------------------------------------- what an unpublish does

  /** The first unmount attempt takes the volume off. */
  predicate UmountGoes(forceLazy: bool, f: UnpublishFaults) {
    f.umount(0).Unmounted? || (f.umount(0).TimedOut? && forceLazy && f.lazyUmount(0))
  }

  /** The layers after the unmount loop: the volume goes at the first attempt or not at all. */
  function LayersAfterUmount(stack: seq<Layer>, attempts: int, forceLazy: bool, f: UnpublishFaults): seq<Layer> {
    if attempts >= 1 && UmountGoes(forceLazy, f) then Bare(stack) else stack
  }

  /** The loop has seen that no volume is mounted: on a mounted one that takes a second attempt. */
  predicate SeenUnmounted(stack: seq<Layer>, attempts: int, forceLazy: bool, f: UnpublishFaults) {
    if Bare(stack) == stack then attempts >= 1 else attempts >= 2 && UmountGoes(forceLazy, f)
  }

  /** The record at the path is processed, and removed. */
  predicate Handles(seen: Option<Meta>, f: UnpublishFaults) {
    seen.Some? ==> f.process && f.removeMeta
  }

  /** The state once the record is handled, or not. */
  function AfterRecord(s: State, f: UnpublishFaults): State {
    var seen := Seen(s.stack, s.base);
    var volume := s.volume && !(f.process && Deletes(seen));
    if seen.None? || !Handles(seen, f) then s.(volume := volume)
    else if s.stack == [] then State(volume, s.dir, None, [])
    else State(volume, s.dir, s.base, s.stack[..|s.stack| - 1] + [Tmpfs(None)])
  }

  /** The state after the part that starts when no volume is mounted. */
  function AfterRemoval(s: State, f: UnpublishFaults): State {
    var seen, t := Seen(s.stack, s.base), AfterRecord(s, f);
    if !Handles(seen, f) || (t.stack != [] && !f.umountTmpfs) then t
    else t.(stack := if t.stack == [] then [] else t.stack[..|t.stack| - 1],
            dir := t.dir && !Removes(s, f))
  }

  /** That part comes to its end: one layer at most, no record under it, and no fault. */
  predicate Removes(s: State, f: UnpublishFaults) {
    var seen, t := Seen(s.stack, s.base), AfterRecord(s, f);
    && Handles(seen, f) && |t.stack| <= 1 && t.base.None? && (t.stack != [] ==> f.umountTmpfs)
    && (seen.Some? && seen.value.mtls ==> f.dropCredentials) && f.rmdir
  }

  function AfterUnpublish(s: State, attempts: int, forceLazy: bool, f: UnpublishFaults): State {
    if !s.dir then s
    else
      var t := s.(stack := LayersAfterUmount(s.stack, attempts, forceLazy, f));
      if SeenUnmounted(s.stack, attempts, forceLazy, f) then AfterRemoval(t, f) else t
  }

  /** The state after one call, and after a run. */
  function After(s: State, c: Call): State {
    match c
    case Publish(r, faults) => AfterPublish(s, r, faults)
    case Unpublish(attempts, forceLazy, f) => AfterUnpublish(s, attempts, forceLazy, f)
  }

  function RunOf(s: State, calls: seq<Call>): State {
    if calls == [] then s else After(RunOf(s, calls[..|calls| - 1]), calls[|calls| - 1])
  }

  // ---------------------------------------------------------------- lost volumes

  /** Some record at the target, on a tmpfs layer or in the directory, tells to delete the volume. */
  predicate Tells(stack: seq<Layer>, base: Option<Meta>) {
    Deletes(base) || exists i :: 0 <= i < |stack| && Deletes(stack[i].meta)
  }

  /** The backend volume exists and nothing at the target tells to delete it. */
  predicate Lost(s: State) {
    s.volume && !Tells(Bare(s.stack), s.base)
  }

  /** A publish that makes the volume and leaves no record of it, where there was none. */
  predicate Loses(s: State, c: Call) {
    && c.Publish? && Makes(c.request.meta, c.faults) && !Tells(Bare(s.stack), s.base)
    && !(GoesOn(s, c.request, c.faults) && Records(c.faults))
  }

  /** A publish that leaves a record. */
  predicate Finds(s: State, c: Call) {
    && c.Publish? && Deletes(Some(c.request.meta))
    && GoesOn(s, c.request, c.faults) && Records(c.faults)
  }

  lemma TellsAppend(stack: seq<Layer>, base: Option<Meta>, layer: Layer)
    ensures Tells(stack + [layer], base) <==> Tells(stack, base) || Deletes(layer.meta)
  {
    var more := stack + [layer];
    assert more[|stack|] == layer;
    if Tells(stack, base) && !Deletes(base) {
      var i :| 0 <= i < |stack| && Deletes(stack[i].meta);
      assert more[i] == stack[i];
    }
  }

  lemma LayersTell(stack: seq<Layer>, base: Option<Meta>, meta: Meta, faults: PublishFaults)
    ensures Tells(Layers(stack, meta, faults), base) <==>
            Tells(stack, base) || (Records(faults) && Deletes(Some(meta)))
  {
    LayersBound(stack, meta, faults);
    TellsAppend(stack, base, Tmpfs(None));
    TellsAppend(stack, base, Tmpfs(Some(meta)));
  }

  lemma BareUnder(layers: seq<Layer>, top: Layer)
    requires top.Export?
    ensures Bare(layers + [top]) == layers
  {
    var all := layers + [top];
    assert all[|all| - 1] == top && all[..|all| - 1] == layers;
  }

  lemma LayersAreBare(stack: seq<Layer>, meta: Meta, faults: PublishFaults)
    requires Bare(stack) == stack
    ensures Bare(Layers(stack, meta, faults)) == Layers(stack, meta, faults)
  {
    LayersBound(stack, meta, faults);
  }

  lemma BareAfterPublish(s: State, r: Request, faults: PublishFaults)
    requires WellFormed(s)
    ensures Bare(AfterPublish(s, r, faults).stack) ==
            if GoesOn(s, r, faults) then Layers(Bare(s.stack), r.meta, faults) else Bare(s.stack)
  {
    if GoesOn(s, r, faults) {
      BareShape(s.stack);
      LayersAreBare(Bare(s.stack), r.meta, faults);
      BareUnder(Layers(Bare(s.stack), r.meta, faults), ExportOf(r));
    }
  }

  /** A publish, stopped anywhere, loses the volume exactly as said; retried publishes included. */
  lemma PublishLoses(s: State, r: Request, faults: PublishFaults)
    requires WellFormed(s)
    ensures var c := Publish(r, faults);
            Lost(AfterPublish(s, r, faults)) <==> Loses(s, c) || (Lost(s) && !Finds(s, c))
  {
    BareAfterPublish(s, r, faults);
    LayersTell(Bare(s.stack), s.base, r.meta, faults);
  }

  lemma SeenTells(stack: seq<Layer>, base: Option<Meta>)
    ensures Deletes(Seen(stack, base)) ==> Tells(stack, base)
  {
  }

  /** A record that does not tell, or none, on top: the rest tells as before. */
  lemma TopTells(stack: seq<Layer>, base: Option<Meta>, m: Option<Meta>)
    requires stack != [] && !Deletes(stack[|stack| - 1].meta) && !Deletes(m)
    ensures Tells(stack[..|stack| - 1], base) <==> Tells(stack, base)
    ensures Tells(stack[..|stack| - 1] + [Tmpfs(m)], base) <==> Tells(stack, base)
  {
    var n := |stack| - 1;
    TellsAppend(stack[..n], base, stack[n]);
    TellsAppend(stack[..n], base, Tmpfs(m));
    assert stack == stack[..n] + [stack[n]];
  }

  lemma RecordKeepsLost(s: State, f: UnpublishFaults)
    requires AllTmpfs(s.stack)
    ensures AllTmpfs(AfterRecord(s, f).stack) && (Lost(AfterRecord(s, f)) <==> Lost(s))
  {
    var seen := Seen(s.stack, s.base);
    SeenTells(s.stack, s.base);
    if !Deletes(seen) && s.stack != [] { TopTells(s.stack, s.base, None); }
  }

  /** A layer without a record makes no difference. */
  lemma PopKeepsLost(s: State, dir: bool)
    requires AllTmpfs(s.stack) && s.stack != [] && s.stack[|s.stack| - 1].meta.None?
    ensures var t := s.(stack := s.stack[..|s.stack| - 1], dir := dir);
            AllTmpfs(t.stack) && (Lost(t) <==> Lost(s))
  {
    TopTells(s.stack, s.base, None);
  }

  lemma HandledSeesNone(s: State, f: UnpublishFaults)
    requires AllTmpfs(s.stack) && Handles(Seen(s.stack, s.base), f)
    ensures var t := AfterRecord(s, f); t.stack != [] ==> t.stack[|t.stack| - 1].meta.None?
  {
  }

  lemma RemovalKeepsLost(s: State, f: UnpublishFaults)
    requires AllTmpfs(s.stack)
    ensures AllTmpfs(AfterRemoval(s, f).stack) && (Lost(AfterRemoval(s, f)) <==> Lost(s))
  {
    var t := AfterRecord(s, f);
    RecordKeepsLost(s, f);
    if Handles(Seen(s.stack, s.base), f) && t.stack != [] {
      HandledSeesNone(s, f);
      PopKeepsLost(t, t.dir && !Removes(s, f));
    }
  }

  lemma BareTmpfs(stack: seq<Layer>)
    requires AllTmpfs(stack)
    ensures Bare(stack) == stack && Shape(stack)
  {
  }

  /** An unpublish stopped anywhere keeps the shape, and neither loses nor finds the volume. */
  lemma UnpublishKeeps(s: State, attempts: int, forceLazy: bool, f: UnpublishFaults)
    requires WellFormed(s)
    ensures var t := AfterUnpublish(s, attempts, forceLazy, f);
            WellFormed(t) && (Lost(t) <==> Lost(s))
  {
    BareShape(s.stack);
    BareTmpfs(Bare(s.stack));
    var t := s.(stack := LayersAfterUmount(s.stack, attempts, forceLazy, f));
    assert Bare(t.stack) == Bare(s.stack);
    if s.dir && SeenUnmounted(s.stack, attempts, forceLazy, f) {
      assert AllTmpfs(t.stack);
      RemovalKeepsLost(t, f);
      BareTmpfs(AfterRemoval(t, f).stack);
      RemovalWellFormed(t, f);
    }
  }

  lemma RemovalWellFormed(s: State, f: UnpublishFaults)
    requires s.dir && AllTmpfs(s.stack)
    ensures WellFormed(AfterRemoval(s, f))
    ensures AfterRemoval(s, f).dir <==> !Removes(s, f)
    ensures Removes(s, f) ==> AfterRemoval(s, f).stack == []
  {
    RemovalKeepsLost(s, f);
    BareTmpfs(AfterRemoval(s, f).stack);
  }

  /** Each call, stopped anywhere: the volume is lost after it exactly if the call lost it, or it was
      lost and the call left no record; and the shape of the target is kept. */
  lemma AfterExplained(s: State, c: Call)
    requires WellFormed(s)
    ensures WellFormed(After(s, c))
    ensures Lost(After(s, c)) <==> Loses(s, c) || (Lost(s) && !Finds(s, c))
  {
    match c
    case Publish(r, faults) =>
      PublishKeepsShape(s, r, faults);
      PublishLoses(s, r, faults);
    case Unpublish(attempts, forceLazy, f) => UnpublishKeeps(s, attempts, forceLazy, f);
  }

  lemma {:induction false} RunWellFormed(s: State, calls: seq<Call>)
    requires WellFormed(s)
    ensures WellFormed(RunOf(s, calls))
    decreases |calls|
  {
    if calls != [] {
      RunWellFormed(s, calls[..|calls| - 1]);
      AfterExplained(RunOf(s, calls[..|calls| - 1]), calls[|calls| - 1]);
    }
  }

  /** For each call of a run: does it lose the volume, made on the state it finds? */
  function LosingCalls(s: State, calls: seq<Call>): seq<bool> {
    seq(|calls|, k requires 0 <= k < |calls| => Loses(RunOf(s, calls[..k]), calls[k]))
  }

  /** For each call of a run: does it leave a record? */
  function FindingCalls(s: State, calls: seq<Call>): seq<bool> {
    seq(|calls|, k requires 0 <= k < |calls| => Finds(RunOf(s, calls[..k]), calls[k]))
  }

  /** At the end of any run the volume is lost if and only if some publish of the run lost it, or it
      was lost at the start, and no later publish has left a record. */
  lemma LossHasCause(s: State, calls: seq<Call>)
    requires WellFormed(s)
    ensures Lost(RunOf(s, calls)) <==>
            Histories.Caused(Lost(s), LosingCalls(s, calls), FindingCalls(s, calls))
  {
    var lost := seq(|calls| + 1, k requires 0 <= k <= |calls| => Lost(RunOf(s, calls[..k])));
    var losing, finding := LosingCalls(s, calls), FindingCalls(s, calls);
    forall k | 0 <= k < |calls| ensures lost[k + 1] == (losing[k] || (lost[k] && !finding[k])) {
      assert calls[..k + 1][..k] == calls[..k];
      RunWellFormed(s, calls[..k]);
      AfterExplained(RunOf(s, calls[..k]), calls[k]);
    }
    Histories.BadIffCaused(lost, losing, finding);
    assert calls[..0] == [] && calls[..|calls|] == calls;
  }

  /** A failed publish that is retried and then works: nothing is lost. */
  lemma RetryFinds(s: State, r: Request, failed: PublishFaults, works: PublishFaults)
    requires WellFormed(s) && r.meta.ephemeral && !r.meta.bucket
    requires !Succeeds(s, r, failed)
    requires var t := AfterPublish(s, r, failed); Succeeds(t, r, works) && GoesOn(t, r, works)
    ensures !Lost(RunOf(s, [Publish(r, failed), Publish(r, works)]))
  {
    var calls := [Publish(r, failed), Publish(r, works)];
    var t := AfterPublish(s, r, failed);
    assert calls[..1] == [Publish(r, failed)] && calls[..1][..0] == [];
    assert RunOf(s, calls[..1]) == After(RunOf(s, calls[..1][..0]), Publish(r, failed)) == t;
    PublishKeepsShape(s, r, failed);
    PublishLoses(t, r, works);
  }

  // ---------------------------------------------------------------- how an unpublish ends

  predicate Finishes(s: State, attempts: int, forceLazy: bool, f: UnpublishFaults) {
    s.dir ==>
      && SeenUnmounted(s.stack, attempts, forceLazy, f)
      && Removes(s.(stack := LayersAfterUmount(s.stack, attempts, forceLazy, f)), f)
  }

  /** Finished, nothing is at the target, and the backend volume is left exactly if it was lost. */
  lemma FinishedUnpublish(s: State, attempts: int, forceLazy: bool, f: UnpublishFaults)
    requires WellFormed(s)
    ensures var t := AfterUnpublish(s, attempts, forceLazy, f);
            Finishes(s, attempts, forceLazy, f) <==> !t.dir
    ensures var t := AfterUnpublish(s, attempts, forceLazy, f);
            !t.dir ==> t.stack == [] && t.base.None? && (t.volume <==> Lost(s))
  {
    UnpublishKeeps(s, attempts, forceLazy, f);
    BareShape(s.stack);
    var t := s.(stack := LayersAfterUmount(s.stack, attempts, forceLazy, f));
    if s.dir && SeenUnmounted(s.stack, attempts, forceLazy, f) {
      assert AllTmpfs(t.stack);
      RemovalWellFormed(t, f);
    }
  }

  lemma RemovalProgress(s: State, f: UnpublishFaults)
    requires NoFaults(f) && AllTmpfs(s.stack)
    ensures Removes(s, f) <==> Simple(s.stack, s.base)
    ensures !Removes(s, f) ==> |AfterRemoval(s, f).stack| < |s.stack|
    ensures |AfterRemoval(s, f).stack| <= |s.stack|
  {
  }

  /** Nothing is mounted by an unpublish; undisturbed it finishes or strictly reduces the layers; it
      finishes at once when at most one tmpfs layer is left and two attempts are allowed; without an
      attempt nothing ever moves. */
  lemma UnpublishProgress(s: State, attempts: int, forceLazy: bool, f: UnpublishFaults)
    requires WellFormed(s)
    ensures var t := AfterUnpublish(s, attempts, forceLazy, f);
            && |t.stack| <= |s.stack|
            && (attempts >= 1 && NoFaults(f) && !Finishes(s, attempts, forceLazy, f) ==> |t.stack| < |s.stack|)
            && (attempts >= 2 && NoFaults(f) && Simple(Bare(s.stack), s.base) ==> Finishes(s, attempts, forceLazy, f))
            && (attempts <= 0 && s.dir ==> t == s && !Finishes(s, attempts, forceLazy, f))
            && (Finishes(s, attempts, forceLazy, f) ==> !t.dir && t.stack == [] && (t.volume <==> Lost(s)))
  {
    FinishedUnpublish(s, attempts, forceLazy, f);
    BareShape(s.stack);
    var t := s.(stack := LayersAfterUmount(s.stack, attempts, forceLazy, f));
    if s.dir && SeenUnmounted(s.stack, attempts, forceLazy, f) {
      RemovalShrinks(t, f);
      if NoFaults(f) { RemovalProgress(t, f); }
    }
  }

  lemma RemovalShrinks(s: State, f: UnpublishFaults)
    ensures |AfterRemoval(s, f).stack| <= |s.stack|
  {
  }

  // ---------------------------------------------------------------- the target in place

  class Target {
    var volume: bool
    var dir: bool
    var base: Option<Meta>
    var stack: seq<Layer>
    ghost var log: seq<Event>

    constructor (s: State)
      requires WellFormed(s)
      ensures Valid() && Value() == s && log == []
    {
      volume, dir, base, stack, log := s.volume, s.dir, s.base, s.stack, [];
    }

    function Value(): State
      reads this
    {
      State(volume, dir, base, stack)
    }

    /** Nothing forbidden has happened. */
    ghost predicate Clean()
      reads this
    {
      forall e :: e in log ==> Harmless(e)
    }

    ghost predicate Valid()
      reads this
    {
      WellFormed(Value()) && Clean()
    }

    function TopMeta(): Option<Meta>
      reads this
    {
      Seen(stack, base)
    }

    /** Write or remove the meta file where the path leads: the topmost layer. */
    method SetTopMeta(m: Option<Meta>)
      modifies this`base, this`stack, this`log
      ensures old(stack) == [] ==> stack == [] && base == m
      ensures old(stack) != [] ==>
                && base == old(base)
                && stack == old(stack)[|old(stack)| - 1 := old(stack)[|old(stack)| - 1].(meta := m)]
      ensures log == old(log) + [if m.Some? then WroteMeta(old(stack) != [] && old(stack)[|old(stack)| - 1].Tmpfs?)
                                 else RemovedMeta(VolumeLayer(old(stack)).Some?)]
    {
      ghost var event := if m.Some? then WroteMeta(stack != [] && stack[|stack| - 1].Tmpfs?)
                         else RemovedMeta(VolumeLayer(stack).Some?);
      log := log + [event];
      if stack == [] {
        base := m;
      } else {
        stack := stack[|stack| - 1 := stack[|stack| - 1].(meta := m)];
      }
    }

    /** `umount -t tmpfs`: the topmost layer, if it is tmpfs. */
    method UmountTmpfs()
      modifies this`stack
      ensures stack == if old(stack) != [] && old(stack)[|old(stack)| - 1].Tmpfs?
                       then old(stack)[..|old(stack)| - 1] else old(stack)
    {
      if stack != [] && stack[|stack| - 1].Tmpfs? {
        stack := stack[..|stack| - 1];
      }
    }

    /** Change the record of a tmpfs on top. */
    method SetRecord(m: Option<Meta>)
      requires Clean() && stack != [] && AllTmpfs(stack)
      modifies this`base, this`stack, this`log
      ensures Clean() && base == old(base)
      ensures stack == old(stack)[..|old(stack)| - 1] + [Tmpfs(m)]
    {
      VolumeLayerCorrect(stack);
      SetTopMeta(m);
    }

    /** `_cleanup_publish_meta_tmpfs`. */
    method Cleanup(faults: PublishFaults) returns (outcome: Outcome)
      requires Clean() && stack != [] && AllTmpfs(stack)
      modifies this`base, this`stack, this`log
      ensures Clean() && base == old(base)
      ensures outcome == Failed || outcome == Dead
      ensures stack == CleanedUp(old(stack), faults)
    {
      if !faults.dropMeta.Works? { return if faults.dropMeta.Killed? then Dead else Failed; }
      SetRecord(None);
      if !faults.dropTmpfs.Works? { return if faults.dropTmpfs.Killed? then Dead else Failed; }
      UmountTmpfs();
      return Failed;
    }

    /** A tmpfs layer with the record on it. */
    method StoreRecord(meta: Meta, faults: PublishFaults) returns (outcome: Outcome)
      requires Clean() && AllTmpfs(stack)
      modifies this`base, this`stack, this`log
      ensures Clean() && base == old(base) && !outcome.Conflict?
      ensures outcome.Ok? <==> faults.mountTmpfs.Works? && faults.storeMeta.Works?
      ensures stack == if !faults.mountTmpfs.Works? then old(stack)
                       else old(stack) + [Tmpfs(if outcome.Ok? then Some(meta) else None)]
    {
      if !faults.mountTmpfs.Works? { return if faults.mountTmpfs.Killed? then Dead else Failed; }
      stack := stack + [Tmpfs(None)];
      if !faults.storeMeta.Works? { return if faults.storeMeta.Killed? then Dead else Failed; }
      SetRecord(Some(meta));
      return Ok;
    }

    /** The last two steps of NodePublishVolume, undone by the cleanup when they fail. */
    method MountExport(layer: Layer, faults: PublishFaults) returns (outcome: Outcome)
      requires Clean() && stack != [] && AllTmpfs(stack)
      modifies this`base, this`stack, this`log
      ensures Clean() && base == old(base) && !outcome.Conflict?
      ensures outcome.Ok? <==> faults.mtlsFlags.Works? && faults.mount.Works?
      ensures stack == if outcome.Ok? then old(stack) + [layer]
                       else if MountFails(faults) then CleanedUp(old(stack), faults) else old(stack)
    {
      if !faults.mtlsFlags.Works? {
        if faults.mtlsFlags.Killed? { return Dead; }
        outcome := Cleanup(faults);
        return;
      }
      if !faults.mount.Works? {
        if faults.mount.Killed? { return Dead; }
        outcome := Cleanup(faults);
        return;
      }
      stack := stack + [layer];
      return Ok;
    }

    /** The second half of NodePublishVolume: directory, tmpfs, record, export. */
    method MountOverRecord(layer: Layer, meta: Meta, faults: PublishFaults) returns (outcome: Outcome)
      requires Clean() && AllTmpfs(stack)
      modifies this`dir, this`base, this`stack, this`log
      ensures Clean() && base == old(base) && dir == (old(dir) || faults.mkdir.Works?)
      ensures !outcome.Conflict? && (outcome.Ok? <==> MountsFresh(faults))
      ensures stack == if outcome.Ok? then Layers(old(stack), meta, faults) + [layer]
                       else Layers(old(stack), meta, faults)
    {
      if !faults.mkdir.Works? { return if faults.mkdir.Killed? then Dead else Failed; }
      dir := true;
      outcome := StoreRecord(meta, faults);
      if !outcome.Ok? { return; }
      outcome := MountExport(layer, faults);
    }

    /** CreateVolume and ControllerPublishVolume of an ephemeral mount, before anything is recorded. */
    method Provision(meta: Meta, faults: PublishFaults) returns (outcome: Outcome)
      modifies this`volume
      ensures !outcome.Conflict? && (outcome.Ok? <==> Provisions(meta, faults))
      ensures volume == (old(volume) || Makes(meta, faults))
    {
      if meta.ephemeral {
        if !faults.provision.Works? { return if faults.provision.Killed? then Dead else Failed; }
        if !meta.bucket {
          volume := true;
        }
        if !faults.attach.Works? { return if faults.attach.Killed? then Dead else Failed; }
      }
      return Ok;
    }

    /** The look at what is mounted already. */
    method CheckTarget(r: Request, faults: PublishFaults) returns (decided: Option<Outcome>)
      requires Shape(stack) && (stack != [] ==> dir)
      modifies this`stack
      ensures decided == Decision(dir, old(stack), r, faults)
      ensures stack == if decided.Some? then old(stack) else Bare(old(stack))
    {
      ShapeVolume(stack);
      if !dir { return None; }
      var found := VolumeLayer(stack);
      if found.None? { return None; }
      if found.value.device == r.spec {
        return Some(if found.value.readonly != r.readonly then Conflict else Ok);
      }
      if PathPart(found.value.device) != PathPart(r.spec) { return Some(Conflict); }
      // a stale entry of the same export: lazy unmount, then mount afresh
      if !faults.lazyUmount.Works? { return Some(if faults.lazyUmount.Killed? then Dead else Failed); }
      stack := stack[..|stack| - 1];
      return None;
    }

    method NodePublishVolume(r: Request, faults: PublishFaults) returns (outcome: Outcome)
      requires Valid()
      modifies this
      ensures Valid() && Value() == AfterPublish(old(Value()), r, faults)
      ensures outcome.Ok? <==> Succeeds(old(Value()), r, faults)
      ensures outcome.Conflict? <==> Conflicts(old(Value()), r, faults)
      ensures Lost(Value()) <==>
              || Loses(old(Value()), Publish(r, faults))
              || (Lost(old(Value())) && !Finds(old(Value()), Publish(r, faults)))
    {
      PublishLoses(Value(), r, faults);
      PublishKeepsShape(Value(), r, faults);
      BareShape(stack);
      outcome := Provision(r.meta, faults);
      if !outcome.Ok? { return; }
      var decided := CheckTarget(r, faults);
      if decided.Some? { return decided.value; }
      outcome := MountOverRecord(ExportOf(r), r.meta, faults);
    }

    /** The unmount loop: make sure the volume is really unmounted before anything is deleted. */
    method UnmountVolume(attempts: int, forceLazy: bool, faults: UnpublishFaults) returns (unmounted: bool)
      requires Shape(stack)
      modifies this`stack
      ensures stack == LayersAfterUmount(old(stack), attempts, forceLazy, faults)
      ensures unmounted <==> SeenUnmounted(old(stack), attempts, forceLazy, faults)
    {
      unmounted := false;
      ShapeVolume(stack);
      var rounds := if attempts < 0 then 0 else attempts;   // range(attempts)
      for i := 0 to rounds
        invariant Shape(stack) && !unmounted
        invariant stack == if i == 0 then old(stack) else Bare(old(stack))
        invariant i >= 1 ==> Bare(old(stack)) != old(stack) && UmountGoes(forceLazy, faults)
        invariant i <= 1
      {
        ShapeVolume(stack);
        if VolumeLayer(stack).None? { return true; }
        match faults.umount(i) {
          case Unmounted =>
          case Refused => return;
          case TimedOut =>
            if !forceLazy || !faults.lazyUmount(i) { return; }
        }
        stack := stack[..|stack| - 1];
      }
    }

    /** `_process_meta`: the volume of an ephemeral mount is deleted. */
    method ProcessRecord()
      requires Clean() && AllTmpfs(stack)
      modifies this`volume, this`log
      ensures Clean() && volume == (old(volume) && !Deletes(TopMeta()))
    {
      VolumeLayerCorrect(stack);
      if Deletes(TopMeta()) {
        volume := false;
        log := log + [DeletedVolume(VolumeLayer(stack).Some?)];
      }
    }

    /** The record: process it, then remove it. */
    method HandleRecord(faults: UnpublishFaults) returns (ok: bool, hasMtls: bool)
      requires Clean() && AllTmpfs(stack)
      modifies this`volume, this`base, this`stack, this`log
      ensures Clean() && Value() == AfterRecord(old(Value()), faults)
      ensures ok <==> Handles(old(TopMeta()), faults)
      ensures ok ==> hasMtls == (old(TopMeta()).Some? && old(TopMeta()).value.mtls)
    {
      ok, hasMtls := true, false;
      if TopMeta().None? { return; }
      if !faults.process { return false, false; }
      hasMtls := TopMeta().value.mtls;
      ProcessRecord();
      if !faults.removeMeta { return false, hasMtls; }
      if stack != [] {
        SetRecord(None);
      } else {
        SetTopMeta(None);
      }
    }

    /** What NodeUnpublishVolume does once no volume is mounted: the record, the topmost tmpfs, the
        credentials and the directory. */
    method RemoveRecord(faults: UnpublishFaults) returns (outcome: Outcome)
      requires Clean() && dir && AllTmpfs(stack)
      modifies this
      ensures Clean() && Value() == AfterRemoval(old(Value()), faults)
      ensures outcome == if Removes(old(Value()), faults) then Ok else Failed
    {
      RecordKeepsLost(Value(), faults);
      var ok, hasMtls := HandleRecord(faults);
      if !ok { return Failed; }
      if stack != [] && !faults.umountTmpfs { return Failed; }
      UmountTmpfs();
      if hasMtls && !faults.dropCredentials { return Failed; }
      if stack != [] || base.Some? || !faults.rmdir { return Failed; }   // EBUSY, ENOTEMPTY
      dir := false;
      log := log + [RemovedDir(VolumeLayer(stack).Some?)];
      return Ok;
    }

    method NodeUnpublishVolume(attempts: int, forceLazy: bool, faults: UnpublishFaults)
      returns (outcome: Outcome)
      requires Valid()
      modifies this
      ensures Valid() && Value() == AfterUnpublish(old(Value()), attempts, forceLazy, faults)
      ensures outcome == if Finishes(old(Value()), attempts, forceLazy, faults) then Ok else Failed
      ensures Lost(Value()) <==> Lost(old(Value()))
    {
      UnpublishKeeps(Value(), attempts, forceLazy, faults);
      if !dir { return Ok; }
      BareShape(stack);
      var unmounted := UnmountVolume(attempts, forceLazy, faults);
      if !unmounted { return Failed; }   // "Stuck in unmount loop"
      outcome := RemoveRecord(faults);
    }

    /** Every sequential run of the two calls, with any faults and kills. */
    method Run(calls: seq<Call>)
      requires Valid()
      modifies this
      ensures Valid() && Value() == RunOf(old(Value()), calls)
    {
      for i := 0 to |calls|
        invariant Valid() && Value() == RunOf(old(Value()), calls[..i])
      {
        assert calls[..i + 1][..i] == calls[..i];
        match calls[i] {
          case Publish(r, faults) =>
            var _ := NodePublishVolume(r, faults);
          case Unpublish(attempts, forceLazy, faults) =>
            var _ := NodeUnpublishVolume(attempts, forceLazy, faults);
        }
      }
      assert calls[..|calls|] == calls;
    }

    /** Retrying an undisturbed Unpublish ends, from every state, as long as at least one unmount
        attempt is configured; the backend volume is left if and only if it was lost before. */
    method UnpublishUntilDone(attempts: int, forceLazy: bool, faults: UnpublishFaults) returns (calls: nat)
      requires Valid() && attempts >= 1 && NoFaults(faults)
      modifies this
      ensures Valid() && !dir && stack == []
      ensures calls <= |old(stack)| + 1
      ensures volume <==> Lost(old(Value()))
    {
      calls := 0;
      var outcome := Failed;
      while !outcome.Ok?
        invariant Valid()
        invariant outcome.Ok? ==> !dir && stack == [] && (volume <==> Lost(old(Value())))
        invariant Lost(Value()) <==> Lost(old(Value()))
        invariant calls + |stack| <= |old(stack)| + if outcome.Ok? then 1 else 0
        decreases !outcome.Ok?, |stack|
      {
        UnpublishProgress(Value(), attempts, forceLazy, faults);
        outcome := NodeUnpublishVolume(attempts, forceLazy, faults);
        calls := calls + 1;
      }
    }
  }

  /** An NFS volume has no write-ahead record. After any run, retried publishes included, an Unpublish
      that is retried until it is done leaves the backend volume if and only if some publish of the
      run lost it and no later one left a record. */
  method RunThenUnpublish(calls: seq<Call>, attempts: int, forceLazy: bool, undisturbed: UnpublishFaults)
    returns (target: Target)
    requires attempts >= 1 && NoFaults(undisturbed)
    ensures fresh(target) && !target.dir && target.stack == []
    ensures var s := State(false, false, None, []);
            target.volume <==> Histories.Caused(false, LosingCalls(s, calls), FindingCalls(s, calls))
  {
    target := new Target(State(false, false, None, []));
    LossHasCause(target.Value(), calls);
    target.Run(calls);
    var _ := target.UnpublishUntilDone(attempts, forceLazy, undisturbed);
  }

  /** Published once on a fresh target, with any faults, and then unpublished: an ephemeral volume is
      left if and only if it was made and its record was not written, or was cleaned up again. */
  method PublishThenUnpublish(
    r: Request, faults: PublishFaults, attempts: int, forceLazy: bool, undisturbed: UnpublishFaults)
    returns (target: Target)
    requires attempts >= 1 && NoFaults(undisturbed)
    ensures fresh(target) && !target.dir && target.stack == []
    ensures target.volume <==> Makes(r.meta, faults) && !(faults.attach.Works? && Records(faults))
  {
    target := new Target(State(false, false, None, []));
    var _ := target.NodePublishVolume(r, faults);
    var _ := target.UnpublishUntilDone(attempts, forceLazy, undisturbed);
  }

  /** In particular a failed mount whose cleanup works loses the volume. */
  method FailedMountLosesVolume(r: Request, undisturbed: UnpublishFaults) returns (target: Target)
    requires NoFaults(undisturbed) && r.meta.ephemeral && !r.meta.bucket
    ensures fresh(target) && !target.dir && target.stack == [] && target.volume
  {
    var faults := PublishFaults(Works, Works, Works, Works, Works, Works, Works, Fails, Works, Works);
    target := PublishThenUnpublish(r, faults, 2, false, undisturbed);
  }
}
