/** What the calls of an NFS target mean, in terms of servers and paths, layers and records: laws of
    `AfterPublish` and `AfterUnpublish` that do not go through their definitions. */
module NfsMeaning {
  import opened NfsNode
  import opened Wrappers

  // ---------------------------------------------------------------- publish

  lemma {:induction false} PathPartOf(host: string, path: string)
    requires ':' !in host
    ensures PathPart(host + ":" + path) == path
    decreases |host|
  {
    var device := host + ":" + path;
    if host == "" {
      assert device[1..] == path;
    } else {
      PathPartOf(host[1..], path);
      assert device[0] == host[0] && device[1..] == host[1..] + ":" + path;
    }
  }

  predicate Provisioned(meta: Meta, f: PublishFaults) {
    meta.ephemeral ==> f.provision == Works && f.attach == Works
  }

  /** Every step of the mount works, from the directory on. */
  predicate Mounts(f: PublishFaults) {
    f.mkdir == Works && f.mountTmpfs == Works && f.storeMeta == Works && f.mtlsFlags == Works && f.mount == Works
  }

  /** Another export is mounted: the call is a conflict that changes nothing if and only if the paths
      differ. Otherwise, whatever the servers, the old entry is stale and gives way. */
  lemma OtherExport(
    s: State, r: Request, f: PublishFaults, under: seq<Layer>, readonly: bool, m: Option<Meta>,
    oldHost: string, oldPath: string, host: string, path: string)
    requires s.dir && s.stack == under + [Export(oldHost + ":" + oldPath, readonly, m)]
    requires r.spec == host + ":" + path && (oldHost, oldPath) != (host, path)
    requires ':' !in oldHost && ':' !in host
    requires Provisioned(r.meta, f) && f.lazyUmount == Works
    ensures Conflicts(s, r, f) <==> oldPath != path
    ensures oldPath != path ==> !Succeeds(s, r, f) && AfterPublish(s, r, f).stack == s.stack
    ensures oldPath == path ==> (Succeeds(s, r, f) <==> Mounts(f))
    ensures oldPath == path && Mounts(f) ==>
              AfterPublish(s, r, f).stack == under + [Tmpfs(Some(r.meta)), Export(r.spec, r.mode, None)]
  {
    PathPartOf(oldHost, oldPath);
    PathPartOf(host, path);
    assert s.stack[..|s.stack| - 1] == under;
    assert oldHost + ":" + oldPath != r.spec by {
      if oldHost + ":" + oldPath == r.spec { SameSpec(oldHost, oldPath, host, path); }
    }
    var recorded := under + [Tmpfs(Some(r.meta))];
    assert recorded + [Export(r.spec, r.mode, None)]
           == under + [Tmpfs(Some(r.meta)), Export(r.spec, r.mode, None)];
  }

  lemma SameSpec(oldHost: string, oldPath: string, host: string, path: string)
    requires ':' !in oldHost && ':' !in host && oldHost + ":" + oldPath == host + ":" + path
    ensures oldHost == host && oldPath == path
  {
    PathPartOf(oldHost, oldPath);
    PathPartOf(host, path);
    assert (oldHost + ":" + oldPath)[..|oldHost|] == oldHost;
    assert (host + ":" + path)[..|host|] == host;
    assert |oldHost| == |host|;
  }

  /** The same export is mounted: nothing changes, and the call succeeds if and only if the mode is the
      requested one. */
  lemma SameExport(s: State, r: Request, f: PublishFaults, under: seq<Layer>, readonly: bool, m: Option<Meta>)
    requires s.dir && s.stack == under + [Export(r.spec, readonly, m)] && Provisioned(r.meta, f)
    ensures AfterPublish(s, r, f).stack == s.stack && AfterPublish(s, r, f).dir
    ensures Succeeds(s, r, f) <==> readonly == r.readonly
    ensures Conflicts(s, r, f) <==> readonly != r.readonly
  {
  }

  /** No export is mounted: never a conflict; the call succeeds if and only if every step works, and
      then record and export are on top. */
  lemma FreeTarget(s: State, r: Request, f: PublishFaults)
    requires !s.dir || AllTmpfs(s.stack)
    requires (!s.dir ==> s.stack == []) && Provisioned(r.meta, f)
    ensures !Conflicts(s, r, f) && (Succeeds(s, r, f) <==> Mounts(f))
    ensures Mounts(f) ==>
              && AfterPublish(s, r, f).dir
              && AfterPublish(s, r, f).stack == s.stack + [Tmpfs(Some(r.meta)), Export(r.spec, r.mode, None)]
    // stopped or failed before the record: no record; after a failed mount the cleanup takes it away
    ensures (f.mkdir != Works || f.mountTmpfs != Works) ==> AfterPublish(s, r, f).stack == s.stack
    ensures f.mkdir == Works && f.mountTmpfs == Works && f.storeMeta != Works ==>
              AfterPublish(s, r, f).stack == s.stack + [Tmpfs(None)]
    ensures f.mkdir == Works && f.mountTmpfs == Works && f.storeMeta == Works && !Mounts(f) ==>
              var fails := f.mtlsFlags == Fails || (f.mtlsFlags == Works && f.mount == Fails);
              AfterPublish(s, r, f).stack ==
              if fails && f.dropMeta == Works && f.dropTmpfs == Works then s.stack
              else s.stack + [Tmpfs(if fails && f.dropMeta == Works then None else Some(r.meta))]
  {
    var recorded := s.stack + [Tmpfs(Some(r.meta))];
    assert recorded[..|recorded| - 1] == s.stack;
    assert recorded + [Export(r.spec, r.mode, None)]
           == s.stack + [Tmpfs(Some(r.meta)), Export(r.spec, r.mode, None)];
  }

  /** The backend volume is made for an ephemeral mount without bucket, once CreateVolume works; when
      provisioning fails nothing is mounted. */
  lemma ProvisionFirst(s: State, r: Request, f: PublishFaults)
    ensures AfterPublish(s, r, f).volume <==>
            s.volume || (r.meta.ephemeral && !r.meta.bucket && f.provision == Works)
    ensures !Provisioned(r.meta, f) ==>
              && !Succeeds(s, r, f) && !Conflicts(s, r, f)
              && AfterPublish(s, r, f) == s.(volume := AfterPublish(s, r, f).volume)
  {
  }

  // ---------------------------------------------------------------- unpublish

  /** A published target: with every later step working, the call finishes if and only if two attempts
      are allowed and the volume is unmounted, by a timed-out unmount only when the lazy one is enabled
      and works. Finished, nothing is left, and the backend volume goes exactly if the record is of an
      ephemeral mount without bucket. */
  lemma UnpublishMounted(
    s: State, record: Meta, device: string, readonly: bool, m: Option<Meta>,
    attempts: int, forceLazy: bool, f: UnpublishFaults)
    requires s.dir && s.base.None? && s.stack == [Tmpfs(Some(record)), Export(device, readonly, m)]
    requires f.process && f.removeMeta && f.umountTmpfs && f.dropCredentials && f.rmdir
    ensures var unmounts := f.umount(0) == Unmounted || (f.umount(0) == TimedOut && forceLazy && f.lazyUmount(0));
            && (Finishes(s, attempts, forceLazy, f) <==> attempts >= 2 && unmounts)
            && AfterUnpublish(s, attempts, forceLazy, f) ==
               if attempts >= 2 && unmounts
               then State(s.volume && !(record.ephemeral && !record.bucket), false, None, [])
               else if attempts == 1 && unmounts then s.(stack := [Tmpfs(Some(record))])
               else s
  {
    var bare := [Tmpfs(Some(record))];
    assert s.stack[..1] == bare && Bare(s.stack) == bare;
    assert bare[..0] + [Tmpfs(None)] == [Tmpfs(None)] && [Tmpfs(None)][..0] == [];
  }

  /** The record alone is left, as after a publish that was killed: process it, remove it, unmount,
      drop the credentials, remove the directory. Each step keeps what is after it in place. */
  lemma UnpublishRecord(s: State, record: Meta, attempts: int, forceLazy: bool, f: UnpublishFaults)
    requires s.dir && s.base.None? && s.stack == [Tmpfs(Some(record))] && attempts >= 1
    ensures Finishes(s, attempts, forceLazy, f) <==>
            f.process && f.removeMeta && f.umountTmpfs && (record.mtls ==> f.dropCredentials) && f.rmdir
    ensures var t := AfterUnpublish(s, attempts, forceLazy, f);
            && (t.volume <==> s.volume && !(f.process && record.ephemeral && !record.bucket))
            && (t.dir <==> !Finishes(s, attempts, forceLazy, f)) && t.base.None?
            && t.stack == if !(f.process && f.removeMeta) then s.stack
                          else if !f.umountTmpfs then [Tmpfs(None)] else []
  {
    assert s.stack[..0] + [Tmpfs(None)] == [Tmpfs(None)] && [Tmpfs(None)][..0] == [];
    assert Bare(s.stack) == s.stack;
  }

  /** No directory: there is nothing to do. */
  lemma UnpublishNothing(s: State, attempts: int, forceLazy: bool, f: UnpublishFaults)
    requires !s.dir
    ensures Finishes(s, attempts, forceLazy, f) && AfterUnpublish(s, attempts, forceLazy, f) == s
  {
  }
}
