/** The node side of an inline ephemeral filesystem volume of plugins/block.py, with the parts
    of plugins/base.py it uses: which record, mounts and backend objects exist at each point
    where a call can stop. One volume id and its target path are followed. */
module BlockEphemeral {
  import opened Faults
  import opened Wrappers

  /** The files that decide what happens next: the meta record, and the file the device is
      bound over. */
  datatype File = MetaRecord | DeviceFile

  /** A mount at the target path; `files` is what the mounted filesystem shows there. */
  datatype Layer = Layer(tmpfs: bool, files: set<File>)

  function SetTop(stack: seq<Layer>, files: set<File>): seq<Layer>
    requires stack != []
  {
    stack[|stack| - 1 := stack[|stack| - 1].(files := files)]
  }

  datatype Call = Publish(goes: Schedule) | Unpublish(goes: Schedule, forceLazy: bool)

  class Node {
    // VMS backend
    var volume: Option<nat>  // the volume of this name, as which one made under it
    var made: nat            // how many have been made
    var mapped: bool         // it is mapped to this node's host
    // node
    var dir: bool            // the target directory exists
    var base: set<File>      // files of the directory itself
    var stack: seq<Layer>    // mounts at the target path, topmost last
    var bound: Option<nat>   // the volume whose device is bind-mounted at <target>/device

    constructor ()
      ensures Valid() && Gone()
    {
      volume, made, mapped, dir, base, stack, bound := None, 0, false, false, {}, [], None;
    }

    predicate HasVolumeLayer()
      reads this
    {
      exists i :: 0 <= i < |stack| && !stack[i].tmpfs
    }

    predicate HasTmpfs()
      reads this
    {
      exists i :: 0 <= i < |stack| && stack[i].tmpfs
    }

    /** Files seen at the target path. */
    function Visible(): set<File>
      reads this
    {
      if stack == [] then base else stack[|stack| - 1].files
    }

    /** Files of the target's tmpfs. */
    function Files(): set<File>
      reads this
    {
      if stack == [] then {} else stack[0].files
    }

    /** The meta record is on the target's tmpfs. */
    predicate Recorded()
      reads this
    {
      exists i :: 0 <= i < |stack| && stack[i].tmpfs && MetaRecord in stack[i].files
    }

    /** Nothing of the volume is left, on the node or in the backend. */
    predicate Gone()
      reads this
    {
      volume.None? && !mapped && bound.None? && stack == [] && !dir
    }

    /** A filesystem is mounted over the record, the volume is mapped, and a device is bound. */
    predicate Published()
      reads this
    {
      volume.Some? && mapped && bound.Some? && dir && Recorded() && stack != [] && !stack[|stack| - 1].tmpfs
    }

    /** The bound device is that of a volume that is gone. */
    predicate Stale()
      reads this
    {
      bound.Some? && bound != volume
    }

    /** Holds whenever a call has returned, failed or been killed. */
    ghost predicate Valid()
      reads this
    {
      && |stack| <= 2
      && (|stack| >= 1 ==> stack[0].tmpfs && dir)
      && (|stack| == 2 ==> stack[1] == Layer(false, {}) && volume.Some? && mapped && bound.Some?)
      && (volume.Some? || bound.Some? ==> Recorded())
      && (mapped ==> volume.Some?)
      && (volume.Some? ==> volume.value < made) && (bound.Some? ==> bound.value < made)
      && base == {}
    }

    method WriteFile(file: File)
      modifies this`stack, this`base
      ensures old(stack) == [] ==> stack == [] && base == old(base) + {file}
      ensures old(stack) != [] ==> base == old(base) && stack == SetTop(old(stack), old(Visible()) + {file})
    {
      if stack == [] {
        base := base + {file};
      } else {
        stack := SetTop(stack, stack[|stack| - 1].files + {file});
      }
    }

    method RemoveFile(file: File)
      modifies this`stack, this`base
      ensures old(stack) == [] ==> stack == [] && base == old(base) - {file}
      ensures old(stack) != [] ==> base == old(base) && stack == SetTop(old(stack), old(Visible()) - {file})
    {
      if stack == [] {
        base := base - {file};
      } else {
        stack := SetTop(stack, stack[|stack| - 1].files - {file});
      }
    }

    /** The target directory, its tmpfs, and the record on it. */
    method StoreRecord(goes: Schedule) returns (ok: bool)
      requires Valid() && |stack| <= 1
      modifies this`dir, this`stack, this`base
      ensures Valid() && |old(stack)| <= |stack| <= 1
      ensures ok <==> goes(0) && goes(2) && (old(stack) == [] ==> goes(1))
      ensures dir <==> old(dir) || goes(0)
      ensures |stack| == if old(stack) != [] || (goes(0) && goes(1)) then 1 else 0
      ensures Files() == old(Files()) + if ok then {MetaRecord} else {}
    {
      if !goes(0) { return false; }
      dir := true;
      if !HasTmpfs() {
        if !goes(1) { return false; }
        stack := stack + [Layer(true, {})];
      }
      if !goes(2) { return false; }
      WriteFile(MetaRecord);
      return true;
    }

    /** NodeStageVolume on the target path itself, and the mount of the device. */
    method Stage(goes: Schedule) returns (ok: bool)
      requires Valid() && |stack| == 1 && volume.Some? && mapped && Recorded()
      modifies this`bound, this`stack, this`base
      ensures Valid() && Recorded()
      ensures ok <==> (old(bound).None? ==> goes(5) && goes(6) && goes(7)) && goes(8)
      // a device found bound is taken as it is
      ensures bound == if old(bound).None? && goes(5) && goes(6) && goes(7) then volume else old(bound)
      ensures |stack| == if ok then 2 else 1
      ensures Files() == old(Files()) + if old(bound).None? && goes(5) && goes(6) then {DeviceFile} else {}
    {
      if bound.None? {
        if !goes(5) { return false; }   // connect, look up and format the device
        if !goes(6) { return false; }
        WriteFile(DeviceFile);
        if !goes(7) { return false; }
        bound := volume;
      }
      if !goes(8) { return false; }
      stack := stack + [Layer(false, {})];
      return true;
    }

    /** NodePublishVolume, from the already-published check to the filesystem mount. */
    method NodePublishVolume(goes: Schedule) returns (ok: bool)
      requires Valid()
      modifies this
      ensures Valid()
      ensures ok ==> Published()
      // published already: nothing changes
      ensures |old(stack)| == 2 ==>
                && ok && stack == old(stack) && dir == old(dir) && made == old(made)
                && volume == old(volume) && mapped == old(mapped) && bound == old(bound)
      ensures |old(stack)| < 2 ==>
                var recorded := goes(0) && goes(2) && (old(stack) == [] ==> goes(1));
                var provisioned := recorded && goes(3) && goes(4);
                var binds := provisioned && old(bound).None? && goes(5) && goes(6);
                && (ok <==> provisioned && (old(bound).None? ==> binds && goes(7)) && goes(8))
                && volume == (if old(volume).None? && recorded && goes(3) then Some(old(made)) else old(volume))
                && made == old(made) + (if old(volume).None? && recorded && goes(3) then 1 else 0)
                && (mapped <==> old(mapped) || provisioned)
                && bound == (if binds && goes(7) then volume else old(bound))
                && (dir <==> old(dir) || goes(0))
                && |stack| == (if ok then 2 else if old(stack) != [] || (goes(0) && goes(1)) then 1 else 0)
                && Files() == old(Files()) + (if recorded then {MetaRecord} else {})
                              + (if binds then {DeviceFile} else {})
      // the device is that of the volume, unless another one was bound before
      ensures Stale() <==> old(Stale())
    {
      if HasVolumeLayer() { return true; }
      ok := StoreRecord(goes);
      if !ok { return false; }
      // _get_publish_context_for_ev_volumes: CreateVolume, then ControllerPublishVolume
      if !goes(3) { return false; }
      if volume.None? {
        volume, made := Some(made), made + 1;
      }
      if !goes(4) { return false; }
      mapped := true;
      ok := Stage(goes);
    }

    /** NodeUnstageVolume, once the volume is gone, and the end of the record. */
    method Unstage(goes: Schedule, forceLazy: bool) returns (ok: bool)
      requires Valid() && |stack| == 1 && volume.None?
      modifies this`bound, this`stack, this`base
      ensures Valid() && |stack| == 1
      ensures var unstages := old(bound).Some? ==> goes(5) || (forceLazy && goes(10));
              && (ok <==> unstages && goes(6) && goes(7))
              && bound == (if unstages then None else old(bound))
              && Files() == old(Files()) - (if unstages && goes(6) then {DeviceFile} else {})
                            - (if ok then {MetaRecord} else {})
    {
      if bound.Some? {                   // a timed-out umount is retried lazily, if enabled
        if !goes(5) && !(forceLazy && goes(10)) { return false; }
        bound := None;
      }
      if !goes(6) { return false; }
      RemoveFile(DeviceFile);
      if !goes(7) { return false; }
      RemoveFile(MetaRecord);
      return true;
    }

    /** What the record asks for: ControllerUnpublishVolume, DeleteVolume and NodeUnstageVolume,
        and then the record goes. */
    method ProcessRecord(goes: Schedule, forceLazy: bool) returns (ok: bool)
      requires Valid() && |stack| == 1 && MetaRecord in Visible()
      modifies this`volume, this`mapped, this`bound, this`stack, this`base
      ensures Valid() && |stack| == 1
      ensures var deletes := (old(volume).Some? ==> goes(2) && goes(3)) && goes(4);
              var unstages := deletes && (old(bound).Some? ==> goes(5) || (forceLazy && goes(10)));
              && (ok <==> unstages && goes(6) && goes(7))
              && volume == (if deletes then None else old(volume))
              && (mapped <==> old(mapped) && !goes(2))
              && bound == (if unstages then None else old(bound))
              && Files() == old(Files()) - (if unstages && goes(6) then {DeviceFile} else {})
                            - (if ok then {MetaRecord} else {})
    {
      if volume.Some? {                  // ControllerUnpublishVolume finds the volume
        if !goes(2) { return false; }
        mapped := false;
        if !goes(3) { return false; }    // lock and prune the host
      }
      if !goes(4) { return false; }      // DeleteVolume
      volume := None;
      ok := Unstage(goes, forceLazy);
    }

    /** NodeUnpublishVolume. */
    method NodeUnpublishVolume(goes: Schedule, forceLazy: bool) returns (ok: bool)
      requires Valid()
      modifies this
      ensures Valid() && made == old(made)
      ensures ok ==> Gone()
      ensures var unmounts := |old(stack)| == 2 ==> goes(0) || (forceLazy && goes(1));
              var record := unmounts && MetaRecord in old(Files());
              var deletes := record && (old(volume).Some? ==> goes(2) && goes(3)) && goes(4);
              var unstages := deletes && (old(bound).Some? ==> goes(5) || (forceLazy && goes(10)));
              var processed := unmounts && (record ==> unstages && goes(6) && goes(7));
              && (ok <==> processed && (old(stack) != [] ==> goes(8)) && goes(9))
              && volume == (if deletes then None else old(volume))
              && (mapped <==> old(mapped) && !(record && goes(2)))
              && bound == (if unstages then None else old(bound))
              && (dir <==> old(dir) && !ok)
              && |stack| == (if !unmounts then 2 else if old(stack) == [] || (processed && goes(8)) then 0 else 1)
              && Files() == if stack == [] then {}
                            else old(Files()) - (if unstages && goes(6) then {DeviceFile} else {})
                                 - (if record && processed then {MetaRecord} else {})
      // a device outlives its volume exactly when the call stops between deleting and unstaging
      ensures Stale() <==> bound.Some? && (old(Stale()) || (old(volume).Some? && volume.None?))
    {
      if HasVolumeLayer() {
        if !goes(0) && !(forceLazy && goes(1)) { return false; }
        stack := stack[..|stack| - 1];
      }
      if MetaRecord in Visible() {
        ok := ProcessRecord(goes, forceLazy);
        if !ok { return false; }
      }
      if HasTmpfs() {
        if bound.Some? || !goes(8) { return false; }
        stack := stack[..|stack| - 1];
      }
      if stack != [] { return false; }     // "Path is mounted. Cannot remove."
      if !goes(9) { return false; }
      dir, base := false, {};
      return true;
    }

    /** Every sequential run of calls, each stopped where its schedule says. */
    method Run(calls: seq<Call>)
      requires Valid()
      modifies this
      ensures Valid()
      ensures volume.Some? ==> Recorded()
      ensures !old(Stale()) && (forall i :: 0 <= i < |calls| ==> !TornUnpublish(calls[i])) ==> !Stale()
    {
      for i := 0 to |calls|
        invariant Valid()
        invariant !old(Stale()) && (forall k :: 0 <= k < i ==> !TornUnpublish(calls[k])) ==> !Stale()
      {
        match calls[i]
        case Publish(goes) => var _ := NodePublishVolume(goes);
        case Unpublish(goes, forceLazy) => var _ := NodeUnpublishVolume(goes, forceLazy);
      }
    }
  }

  /** From nothing, through any run, one Unpublish that goes through leaves nothing. */
  method RunThenUnpublish(calls: seq<Call>, goes: Schedule, forceLazy: bool) returns (node: Node, ok: bool)
    ensures fresh(node) && node.Valid()
    ensures ok ==> node.Gone()
    ensures (forall k :: goes(k)) ==> ok
  {
    node := new Node();
    node.Run(calls);
    ok := node.NodeUnpublishVolume(goes, forceLazy);
  }

  /** An Unpublish that would stop between deleting the volume and unstaging its device. */
  predicate TornUnpublish(c: Call) {
    c.Unpublish? && c.goes(4) && !c.goes(5) && !(c.forceLazy && c.goes(10))
  }

  /** The exception is real: after such an Unpublish the next Publish succeeds with a new volume, and
      mounts the device of the old one. */
  method TornUnpublishKeepsDevice(forceLazy: bool) returns (node: Node, ok: bool)
    ensures fresh(node) && ok && node.Published() && node.bound != node.volume
  {
    node := new Node();
    ok := node.NodePublishVolume(k => true);
    ok := node.NodeUnpublishVolume(k => k != 5 && k != 10, forceLazy);
    ok := node.NodePublishVolume(k => true);
  }
}
