/** The data directory of an NFS volume (plugins/nfs.py): created with the view, kept alive by a
    quota or by snapshots, and removed by DeleteVolume or by DeleteSnapshot of the last snapshot.
    Paths carry no trailing slash. */
module DataDirectory {
  import opened Faults
  import opened Lists
  import opened Strings
  import Histories
  import QuotaLookup

  /** What the storage holds: directories, views and quotas by path, snapshots by id. */
  datatype Store = Store(
    dirs: set<string>, views: set<string>, quotas: set<string>, snapshots: map<nat, string>)

  predicate Contains(s: string, part: string) {
    exists i: nat | i <= |s| :: OccursAt(part, s, i)
  }

  /** Some snapshot was taken of exactly this path. */
  predicate OwnSnapshot(s: Store, path: string) {
    exists id :: id in s.snapshots && s.snapshots[id] == path
  }

  /** `snapshots.has_snapshots(path)`: a `path__contains` query. */
  predicate HasSnapshots(s: Store, path: string) {
    exists id :: id in s.snapshots && Contains(s.snapshots[id], path)
  }

  /** Directories that neither a quota nor a snapshot accounts for. */
  function Orphans(s: Store): set<string> {
    set d | d in s.dirs && d !in s.quotas && !OwnSnapshot(s, d)
  }

  /** The quotas that `quotas.one(name=...)` looks at. */
  function Named(s: Store, name: string): set<string> {
    QuotaLookup.Named(s.quotas, name)
  }

  /** The store after a completed DeleteVolume of the volume at path q. */
  function Deleted(s: Store, q: string): Store {
    Store(if OwnSnapshot(s, q) then s.dirs else s.dirs - {q}, s.views - {q}, s.quotas - {q}, s.snapshots)
  }

  datatype Call =
    | CreateVolume(path: string, goes: Schedule)
    | CreateSnapshot(name: string, id: nat)
    | DeleteVolume(name: string, trash: bool, goes: Schedule)
    | DeleteSnapshot(id: nat, streaming: bool, goes: Schedule)

  /** The store without one snapshot. */
  function Dropped(s: Store, id: nat): Store {
    s.(snapshots := s.snapshots - {id})
  }

  /** The directory that a call leaves without quota and snapshot: that of a create stopped before
      the quota, or of a deleted snapshot whose data a stop, or another path's snapshot, keeps. */
  function Loses(s: Store, c: Call): set<string> {
    match c
    case CreateVolume(path, goes) =>
      if goes(0) && !goes(1) && path !in s.views && path !in s.quotas && !OwnSnapshot(s, path) then {path} else {}
    case DeleteSnapshot(id, streaming, goes) =>
      if id !in s.snapshots || streaming || !goes(0) then {}
      else
        var path, t := s.snapshots[id], Dropped(s, id);
        if path in s.dirs && path !in s.quotas && !OwnSnapshot(t, path) && (HasSnapshots(t, path) || !goes(1))
        then {path} else {}
    case _ => {}
  }

  /** The path for which a call makes a quota. */
  function Adopts(c: Call): set<string> {
    if c.CreateVolume? && c.goes(0) && c.goes(1) then {c.path} else {}
  }

  /** A quota, or any snapshot whose path contains this one, keeps DeleteSnapshot off the data. */
  predicate Kept(s: Store, path: string) {
    path in s.quotas || HasSnapshots(s, path)
  }

  /** In trash mode a volume with snapshots is not deleted. */
  predicate Barred(s: Store, q: string, trash: bool) {
    trash && HasSnapshots(s, q)
  }

  /** What a DeleteVolume of the volume at path q has done where it stops: data, view, quota. */
  function AfterDelete(s: Store, q: string, trash: bool, goes: Schedule): Store {
    if Barred(s, q, trash) || !goes(1) then s
    else
      Store(if OwnSnapshot(s, q) then s.dirs else s.dirs - {q},
            if goes(2) then s.views - {q} else s.views,
            if goes(2) && goes(3) then s.quotas - {q} else s.quotas,
            s.snapshots)
  }

  /** The store after one call, stopped where its schedule says. */
  ghost function After(s: Store, c: Call): Store {
    match c
    case CreateVolume(path, goes) =>
      if !goes(0) then s
      else Store(if path in s.views then s.dirs else s.dirs + {path}, s.views + {path},
                 if goes(1) then s.quotas + {path} else s.quotas, s.snapshots)
    case CreateSnapshot(name, id) =>
      if id in s.snapshots || |Named(s, name)| != 1 then s
      else var q :| q in Named(s, name); s.(snapshots := s.snapshots[id := q])
    case DeleteVolume(name, trash, goes) =>
      if !goes(0) || |Named(s, name)| != 1 then s
      else var q :| q in Named(s, name); AfterDelete(s, q, trash, goes)
    case DeleteSnapshot(id, streaming, goes) =>
      if id !in s.snapshots || streaming || !goes(0) then s
      else
        var path, t := s.snapshots[id], Dropped(s, id);
        if Kept(t, path) || !goes(1) then t else t.(dirs := t.dirs - {path})
  }

  /** The store after a run. */
  ghost function RunOf(s: Store, calls: seq<Call>): Store {
    if calls == [] then s else After(RunOf(s, calls[..|calls| - 1]), calls[|calls| - 1])
  }

  /** What a DeleteVolume that completes makes of the store: it deletes whichever volume has a path
      that ends with the id; more than one is an error. */
  ghost function DeletedByName(s: Store, name: string): Store {
    if |Named(s, name)| == 1 then var q :| q in Named(s, name); Deleted(s, q) else s
  }

  lemma DeletedByNameIs(s: Store, name: string, q: string)
    requires Named(s, name) == {q}
    ensures DeletedByName(s, name) == Deleted(s, q)
  {
    assert |{q}| == 1;
  }

  /** It completes, and nothing but the own volume goes, if and only if no other volume's path ends
      with the id. */
  lemma OwnVolumeGoes(s: Store, name: string, own: string)
    requires EndsWith(own, name)
    ensures |Named(s, name)| <= 1 && DeletedByName(s, name) == (if own in s.quotas then Deleted(s, own) else s)
            <==> Named(s, name) <= {own}
  {
    var found := Named(s, name);
    assert own in s.quotas <==> own in found;
    if found <= {own} {
      assert found == {} || found == {own};
      assert |{own}| == 1;
    } else if |found| <= 1 {
      var q :| q in found && q != own;
      OnlyOne(found, q);
      assert q in s.quotas && q !in DeletedByName(s, name).quotas;
    }
  }

  /** The failing inputs: a deleted or never created volume, and one other whose path ends with its
      id. The other one goes, with its data unless it has a snapshot. */
  lemma ForeignVolumeGoes(s: Store, name: string, own: string, other: string)
    requires own !in s.quotas && Named(s, name) == {other} && own != other
    ensures DeletedByName(s, name) == Deleted(s, other)
    ensures other in s.quotas && other !in DeletedByName(s, name).quotas
    ensures other in DeletedByName(s, name).dirs <==> other in s.dirs && OwnSnapshot(s, other)
  {
    assert other in Named(s, name);
    assert |{other}| == 1;
  }

  /** Such paths exist, for example volumes v1 and xv1 of one export. */
  lemma ForeignPathExample()
    ensures EndsWith("/v1", "v1") && EndsWith("/xv1", "v1") && "/v1" != "/xv1"
  {
    assert "/v1"[1..] == "v1" && "/xv1"[2..] == "v1";
  }

  lemma ContainsSelf(s: string)
    ensures Contains(s, s)
  {
    assert OccursAt(s, s, 0);
  }

  lemma OwnIsContained(s: Store, path: string)
    ensures OwnSnapshot(s, path) ==> HasSnapshots(s, path)
  {
    ContainsSelf(path);
  }

  // ---------------------------------------------------------------- orphans after a call

  lemma CreateOrphans(s: Store, path: string, goes: Schedule)
    ensures Explained(s, Call.CreateVolume(path, goes))
  {
    var t := After(s, Call.CreateVolume(path, goes));
    assert forall d :: OwnSnapshot(t, d) == OwnSnapshot(s, d);
  }

  lemma SnapshotOrphans(s: Store, name: string, id: nat)
    ensures Explained(s, Call.CreateSnapshot(name, id))
  {
    var t := After(s, Call.CreateSnapshot(name, id));
    if id !in s.snapshots && |Named(s, name)| == 1 {
      var q := t.snapshots[id];
      assert q in Named(s, name);
      forall d ensures OwnSnapshot(t, d) <==> OwnSnapshot(s, d) || d == q {
        assert id in t.snapshots && t.snapshots[id] == q;
        if OwnSnapshot(s, d) {
          var i :| i in s.snapshots && s.snapshots[i] == d;
          assert t.snapshots[i] == d;
        }
      }
    }
  }

  /** Wherever a DeleteVolume stops, no directory is left without quota and snapshot. */
  lemma DeleteAtOrphans(s: Store, q: string, trash: bool, goes: Schedule)
    requires q in s.quotas
    ensures Orphans(AfterDelete(s, q, trash, goes)) == Orphans(s)
  {
    var t := AfterDelete(s, q, trash, goes);
    assert forall d :: OwnSnapshot(t, d) == OwnSnapshot(s, d);
  }

  lemma DeleteOrphans(s: Store, name: string, trash: bool, goes: Schedule)
    ensures Explained(s, Call.DeleteVolume(name, trash, goes))
  {
    if goes(0) && |Named(s, name)| == 1 {
      forall q | q in Named(s, name) ensures Orphans(AfterDelete(s, q, trash, goes)) == Orphans(s) {
        DeleteAtOrphans(s, q, trash, goes);
      }
    }
  }

  lemma DropOrphans(s: Store, id: nat, streaming: bool, goes: Schedule)
    ensures Explained(s, Call.DeleteSnapshot(id, streaming, goes))
  {
    if id in s.snapshots && !streaming && goes(0) {
      var path, t := s.snapshots[id], Dropped(s, id);
      OtherPathsKeep(s, t, id);
      OwnIsContained(t, path);
      assert OwnSnapshot(s, path);
      var u := After(s, Call.DeleteSnapshot(id, streaming, goes));
      assert forall d :: OwnSnapshot(u, d) == OwnSnapshot(t, d);
    }
  }

  /** The orphans after any call: those before, without a path that gets a quota, and with the path
      that the call loses. */
  lemma AfterExplained(s: Store, c: Call)
    ensures Explained(s, c)
  {
    match c
    case CreateVolume(path, goes) => CreateOrphans(s, path, goes);
    case CreateSnapshot(name, id) => SnapshotOrphans(s, name, id);
    case DeleteVolume(name, trash, goes) => DeleteOrphans(s, name, trash, goes);
    case DeleteSnapshot(id, streaming, goes) => DropOrphans(s, id, streaming, goes);
  }

  /** DeleteSnapshot removes a directory only when it has neither a quota nor a snapshot left, and when
      the snapshot is gone already it changes nothing. */
  lemma DropSparesOwned(s: Store, id: nat, streaming: bool, goes: Schedule, d: string)
    requires d in s.dirs && d !in After(s, Call.DeleteSnapshot(id, streaming, goes)).dirs
    ensures var t := After(s, Call.DeleteSnapshot(id, streaming, goes));
            && id in s.snapshots && s.snapshots[id] == d
            && d !in t.quotas && !HasSnapshots(t, d) && !OwnSnapshot(t, d)
            && After(t, Call.DeleteSnapshot(id, streaming, goes)) == t
  {
    var t := After(s, Call.DeleteSnapshot(id, streaming, goes));
    assert HasSnapshots(t, d) == HasSnapshots(Dropped(s, id), d);
    OwnIsContained(t, d);
  }

  lemma AfterInUse(s: Store, c: Call)
    ensures InUse(After(s, c)) <= InUse(s) + Mentions(c)
  {
    var t := After(s, c);
    forall v | v in t.snapshots.Values ensures v in s.snapshots.Values || v in s.quotas {
      var i :| i in t.snapshots && t.snapshots[i] == v;
      assert i in s.snapshots && s.snapshots[i] == v ==> v in s.snapshots.Values;
    }
  }

  class Backend {
    var dirs: set<string>
    var views: set<string>
    var quotas: set<string>
    var snapshots: map<nat, string>

    constructor ()
      ensures State() == Store({}, {}, {}, map[])
    {
      dirs, views, quotas, snapshots := {}, {}, {}, map[];
    }

    function State(): Store
      reads this
    {
      Store(dirs, views, quotas, snapshots)
    }

    /** EmptyVolumeBuilder: the view, with its directory, then the quota. */
    method CreateVolume(path: string, goes: Schedule) returns (ok: bool)
      modifies this
      ensures ok <==> goes(0) && goes(1)
      ensures State() == After(old(State()), Call.CreateVolume(path, goes))
    {
      if !goes(0) { return false; }
      if path !in views {
        views, dirs := views + {path}, dirs + {path};
      }
      assert views == old(views) + {path};
      if !goes(1) { return false; }
      quotas := quotas + {path};
      return true;
    }

    /** CreateSnapshot of a named volume, under a fresh id. */
    method CreateSnapshot(name: string, id: nat) returns (ok: bool)
      requires id !in snapshots
      modifies this`snapshots
      ensures ok <==> |Named(old(State()), name)| == 1
      ensures State() == After(old(State()), Call.CreateSnapshot(name, id))
    {
      var found := Named(State(), name);
      if |found| != 1 { return false; }   // NOT_FOUND, or too many
      var q :| q in found;
      OnlyOne(found, q);
      snapshots := snapshots[id := q];
      return true;
    }

    /** `_delete_data_from_storage`: the trash API removes the tree; the local `rm` cannot
        remove a directory that still holds snapshots. */
    method RemoveData(path: string) returns (notEmpty: bool)
      modifies this`dirs
      ensures notEmpty == OwnSnapshot(State(), path)
      ensures dirs == if notEmpty then old(dirs) else old(dirs) - {path}
    {
      notEmpty := OwnSnapshot(State(), path);
      if !notEmpty {
        dirs := dirs - {path};
      }
    }

    /** The steps of DeleteVolume once the quota, at path q, is found. */
    method DeleteAt(q: string, trash: bool, goes: Schedule) returns (ok: bool)
      requires q in quotas
      modifies this
      ensures State() == AfterDelete(old(State()), q, trash, goes)
      ensures ok <==> !Barred(old(State()), q, trash) && goes(1) && goes(2) && goes(3)
    {
      OwnIsContained(State(), q);
      if trash && HasSnapshots(State(), q) { return false; }
      if !goes(1) { return false; }
      var notEmpty := RemoveData(q);
      assert HasSnapshots(State(), q) == HasSnapshots(old(State()), q);
      if notEmpty && !HasSnapshots(State(), q) { return false; }
      if !goes(2) { return false; }
      views := views - {q};
      if !goes(3) { return false; }
      quotas := quotas - {q};
      return true;
    }

    /** DeleteVolume. `trash`: the trash API may be used, so snapshots forbid the deletion. */
    method DeleteVolume(name: string, trash: bool, goes: Schedule) returns (ok: bool)
      modifies this
      ensures State() == After(old(State()), Call.DeleteVolume(name, trash, goes))
      ensures ok <==> goes(0) && Completes(old(State()), name, trash, goes)
    {
      if !goes(0) { return false; }          // stop the clone stream
      var found := Named(State(), name);
      if found == {} { return true; }
      if |found| > 1 { return false; }       // too many quotas
      var q :| q in found;
      OnlyOne(found, q);
      DeletedIs(State(), name, trash, goes, q);
      CompletesIs(State(), name, trash, goes, q);
      ok := DeleteAt(q, trash, goes);
    }

    /** DeleteSnapshot, refused while clone streams of it run. */
    method DeleteSnapshot(id: nat, streaming: bool, goes: Schedule) returns (ok: bool)
      modifies this
      ensures State() == After(old(State()), Call.DeleteSnapshot(id, streaming, goes))
      ensures ok <==> id !in old(snapshots)
                      || (!streaming && goes(0)
                          && (goes(1) || Kept(Dropped(old(State()), id), old(snapshots)[id])))
    {
      if id !in snapshots { return true; }
      if streaming { return false; }
      if !goes(0) { return false; }
      var path := snapshots[id];
      snapshots := snapshots - {id};
      OwnIsContained(State(), path);
      if !Kept(State(), path) {
        if !goes(1) { return false; }
        var _ := RemoveData(path);
      }
      return true;
    }

    /** DeleteVolume stopped anywhere, any number of times, then retried to the end: the store is
        that of one undisturbed call. */
    method DeleteVolumeUntilDone(name: string, trash: bool, stops: seq<Schedule>, last: Schedule) returns (ok: bool)
      requires forall k :: last(k)
      modifies this
      ensures forall q :: Named(old(State()), name) == {q} && !Barred(old(State()), q, trash) ==>
                ok && State() == Deleted(old(State()), q)
      ensures Orphans(State()) == Orphans(old(State()))
    {
      ok := false;
      for i := 0 to |stops|
        invariant Orphans(State()) == Orphans(old(State()))
        invariant ResumableAll(old(State()), State(), name, ok)
      {
        if !ok {
          DeleteOrphans(State(), name, trash, stops[i]);
          DeleteResumesAll(old(State()), State(), name, trash, stops[i]);
          ok := DeleteVolume(name, trash, stops[i]);
        }
      }
      if !ok {
        DeleteOrphans(State(), name, trash, last);
        DeleteResumesAll(old(State()), State(), name, trash, last);
        ok := DeleteVolume(name, trash, last);
      }
    }

    /** One call, stopped where its schedule says. A snapshot id is given once. */
    method Step(c: Call)
      modifies this
      ensures State() == After(old(State()), c)
    {
      match c
      case CreateVolume(path, goes) =>
        var _ := CreateVolume(path, goes);
      case CreateSnapshot(name, id) =>
        if id !in snapshots { var _ := CreateSnapshot(name, id); }
      case DeleteVolume(name, trash, goes) =>
        var _ := DeleteVolume(name, trash, goes);
      case DeleteSnapshot(id, streaming, goes) =>
        var _ := DeleteSnapshot(id, streaming, goes);
    }

    /** Every sequential run, of any calls on any paths. */
    method Run(calls: seq<Call>)
      modifies this
      ensures State() == RunOf(old(State()), calls)
    {
      for i := 0 to |calls|
        invariant State() == RunOf(old(State()), calls[..i])
      {
        assert calls[..i + 1][..i] == calls[..i];
        Step(calls[i]);
      }
      assert calls[..|calls|] == calls;
    }

    /** In particular: when no create or snapshot deletion is torn between its two steps, and no
        path in use contains another, no directory is ever left without quota and snapshot,
        wherever a DeleteVolume stops. */
    method RunApart(calls: seq<Call>, paths: set<string>)
      requires Apart(paths) && InUse(State()) <= paths && Orphans(State()) == {}
      requires forall i :: 0 <= i < |calls| ==> Whole(calls[i])
      requires MentionedBy(calls) <= paths
      modifies this
      ensures Orphans(State()) == {} && InUse(State()) <= paths
    {
      for i := 0 to |calls|
        invariant InUse(State()) <= paths && Orphans(State()) == {}
      {
        WholeLosesNothing(State(), calls[i], paths);
        AfterExplained(State(), calls[i]);
        AfterInUse(State(), calls[i]);
        assert Mentions(calls[i]) <= MentionedBy(calls);
        Step(calls[i]);
      }
    }
  }

  /** The paths a call can bring into use. */
  function Mentions(c: Call): set<string> {
    if c.CreateVolume? then {c.path} else {}
  }

  function MentionedBy(calls: seq<Call>): set<string> {
    set i, p | 0 <= i < |calls| && p in Mentions(calls[i]) :: p
  }

  // ---------------------------------------------------------------- where orphans come from

  ghost predicate Explained(s: Store, c: Call) {
    Orphans(After(s, c)) == Orphans(s) - Adopts(c) + Loses(s, c)
  }

  /** For each call of a run: does it lose the directory, made on the store it finds? */
  ghost function LostBy(s: Store, calls: seq<Call>, d: string): seq<bool> {
    seq(|calls|, k requires 0 <= k < |calls| => d in Loses(RunOf(s, calls[..k]), calls[k]))
  }

  /** For each call of a run: does it complete a create on the path? */
  function AdoptedBy(calls: seq<Call>, d: string): seq<bool> {
    seq(|calls|, k requires 0 <= k < |calls| => d in Adopts(calls[k]))
  }

  lemma RunStep(s: Store, calls: seq<Call>, k: nat)
    requires k < |calls|
    ensures RunOf(s, calls[..k + 1]) == After(RunOf(s, calls[..k]), calls[k])
  {
    assert calls[..k + 1][..k] == calls[..k];
  }

  /** A directory is without quota and snapshot at the end of a run if and only if some call of the
      run lost it, or it was so at the start, and no later create has completed on its path. */
  lemma OrphanHasCause(s: Store, calls: seq<Call>, d: string)
    ensures d in Orphans(RunOf(s, calls)) <==>
            Histories.Caused(d in Orphans(s), LostBy(s, calls, d), AdoptedBy(calls, d))
  {
    var orphan := seq(|calls| + 1, k requires 0 <= k <= |calls| => d in Orphans(RunOf(s, calls[..k])));
    var lost, adopted := LostBy(s, calls, d), AdoptedBy(calls, d);
    forall k | 0 <= k < |calls| ensures orphan[k + 1] == (lost[k] || (orphan[k] && !adopted[k])) {
      RunStep(s, calls, k);
      AfterExplained(RunOf(s, calls[..k]), calls[k]);
    }
    Histories.BadIffCaused(orphan, lost, adopted);
    assert calls[..0] == [] && calls[..|calls|] == calls;
  }

  // ---------------------------------------------------------------- interrupted deletes

  /** The call finds at most one volume, and goes through, or has nothing to do. */
  predicate Completes(s: Store, name: string, trash: bool, goes: Schedule) {
    || Named(s, name) == {}
    || (|Named(s, name)| == 1 && goes(1) && goes(2) && goes(3)
        && forall q :: q in Named(s, name) ==> !Barred(s, q, trash))
  }

  lemma CompletesIs(s: Store, name: string, trash: bool, goes: Schedule, q: string)
    requires Named(s, name) == {q}
    ensures Completes(s, name, trash, goes) <==> goes(1) && goes(2) && goes(3) && !Barred(s, q, trash)
  {
    assert |{q}| == 1 && q in Named(s, name);
  }

  /** A stopped delete: the quota is still there, and finishing leads to the same store. */
  ghost predicate Resumable(s: Store, t: Store, name: string, q: string, done: bool) {
    && t.snapshots == s.snapshots
    && if done then t == Deleted(s, q) else Named(t, name) == {q} && Deleted(t, q) == Deleted(s, q)
  }

  lemma DeleteResumes(s: Store, t: Store, name: string, q: string, trash: bool, goes: Schedule)
    requires Named(s, name) == {q} && Resumable(s, t, name, q, false)
    ensures Resumable(s, After(t, Call.DeleteVolume(name, trash, goes)), name, q,
                      goes(0) && Completes(t, name, trash, goes))
    ensures Barred(t, q, trash) == Barred(s, q, trash)
  {
    assert |{q}| == 1;
    assert q in Named(t, name);
    AfterDeleteResumes(s, t, name, q, trash, goes);
  }

  ghost predicate ResumableAll(s: Store, t: Store, name: string, done: bool) {
    forall q :: Named(s, name) == {q} ==> Resumable(s, t, name, q, done)
  }

  lemma DeleteResumesAll(s: Store, t: Store, name: string, trash: bool, goes: Schedule)
    requires ResumableAll(s, t, name, false)
    ensures ResumableAll(s, After(t, Call.DeleteVolume(name, trash, goes)), name,
                         goes(0) && Completes(t, name, trash, goes))
    ensures forall q :: Named(s, name) == {q} && goes(0) && goes(1) && goes(2) && goes(3) && !Barred(s, q, trash) ==>
              Completes(t, name, trash, goes)
  {
    forall q | Named(s, name) == {q}
      ensures Resumable(s, After(t, Call.DeleteVolume(name, trash, goes)), name, q,
                        goes(0) && Completes(t, name, trash, goes))
      ensures Barred(t, q, trash) == Barred(s, q, trash)
      ensures Completes(t, name, trash, goes) <==> goes(1) && goes(2) && goes(3) && !Barred(t, q, trash)
    {
      DeleteResumes(s, t, name, q, trash, goes);
      CompletesIs(t, name, trash, goes, q);
    }
  }

  lemma AfterDeleteResumes(s: Store, t: Store, name: string, q: string, trash: bool, goes: Schedule)
    requires Resumable(s, t, name, q, false)
    ensures Resumable(s, AfterDelete(t, q, trash, goes), name, q,
                      !Barred(t, q, trash) && goes(1) && goes(2) && goes(3))
    ensures Barred(t, q, trash) == Barred(s, q, trash)
  {
    var u := AfterDelete(t, q, trash, goes);
    assert OwnSnapshot(u, q) == OwnSnapshot(t, q) == OwnSnapshot(s, q);
    assert HasSnapshots(t, q) == HasSnapshots(s, q);
    assert u.quotas == t.quotas ==> Named(u, name) == Named(t, name);
  }

  // ---------------------------------------------------------------- views without a directory

  /** The view of a volume whose directory is gone. */
  predicate Hollow(s: Store, p: string) {
    p in s.views && p !in s.dirs
  }

  /** A DeleteVolume stopped between data and view, or a DeleteSnapshot that removes the data of a
      path that still has a view. */
  predicate Hollows(s: Store, c: Call, p: string) {
    && p in s.views && p in s.dirs
    && match c
       case DeleteVolume(name, trash, goes) =>
         && goes(0) && goes(1) && !goes(2) && Named(s, name) == {p}
         && !Barred(s, p, trash) && !OwnSnapshot(s, p)
       case DeleteSnapshot(id, streaming, goes) =>
         && id in s.snapshots && s.snapshots[id] == p && !streaming && goes(0) && goes(1)
         && !Kept(Dropped(s, id), p)
       case _ => false
  }

  /** A DeleteVolume that comes to the view. */
  predicate Clears(s: Store, c: Call, p: string) {
    && c.DeleteVolume? && Named(s, c.name) == {p} && !Barred(s, p, c.trash)
    && c.goes(0) && c.goes(1) && c.goes(2)
  }

  lemma DeleteHollows(s: Store, q: string, trash: bool, goes: Schedule, p: string)
    ensures Hollow(AfterDelete(s, q, trash, goes), p) <==>
            if p != q || Barred(s, q, trash) || !goes(1) then Hollow(s, p)
            else p in s.views && !goes(2) && (p !in s.dirs || !OwnSnapshot(s, p))
  {
  }

  lemma AfterDeleteHollow(s: Store, name: string, trash: bool, goes: Schedule, p: string)
    ensures var c := Call.DeleteVolume(name, trash, goes);
            Hollow(After(s, c), p) <==> Hollows(s, c, p) || (Hollow(s, p) && !Clears(s, c, p))
  {
    if goes(0) && |Named(s, name)| == 1 {
      var q :| q in Named(s, name);
      OnlyOne(Named(s, name), q);
      DeletedIs(s, name, trash, goes, q);
      DeleteHollows(s, q, trash, goes, p);
      assert Named(s, name) == {p} <==> p == q;
    } else {
      assert Named(s, name) == {p} ==> |{p}| == 1;
    }
  }

  lemma AfterDropHollow(s: Store, id: nat, streaming: bool, goes: Schedule, p: string)
    ensures var c := Call.DeleteSnapshot(id, streaming, goes);
            Hollow(After(s, c), p) <==> Hollows(s, c, p) || (Hollow(s, p) && !Clears(s, c, p))
  {
  }

  lemma AfterHollow(s: Store, c: Call, p: string)
    ensures Hollow(After(s, c), p) <==> Hollows(s, c, p) || (Hollow(s, p) && !Clears(s, c, p))
  {
    match c
    case CreateVolume(path, goes) =>
    case CreateSnapshot(name, id) =>
    case DeleteVolume(name, trash, goes) => AfterDeleteHollow(s, name, trash, goes, p);
    case DeleteSnapshot(id, streaming, goes) => AfterDropHollow(s, id, streaming, goes, p);
  }

  lemma DeletedIs(s: Store, name: string, trash: bool, goes: Schedule, q: string)
    requires goes(0) && Named(s, name) == {q}
    ensures After(s, Call.DeleteVolume(name, trash, goes)) == AfterDelete(s, q, trash, goes)
  {
    assert |{q}| == 1;
  }

  ghost function HollowedBy(s: Store, calls: seq<Call>, p: string): seq<bool> {
    seq(|calls|, k requires 0 <= k < |calls| => Hollows(RunOf(s, calls[..k]), calls[k], p))
  }

  ghost function ClearedBy(s: Store, calls: seq<Call>, p: string): seq<bool> {
    seq(|calls|, k requires 0 <= k < |calls| => Clears(RunOf(s, calls[..k]), calls[k], p))
  }

  /** At the end of a run a view is without its directory if and only if such a call made it so, or it
      was so at the start, and no later DeleteVolume came to the view. */
  lemma HollowHasCause(s: Store, calls: seq<Call>, p: string)
    ensures Hollow(RunOf(s, calls), p) <==>
            Histories.Caused(Hollow(s, p), HollowedBy(s, calls, p), ClearedBy(s, calls, p))
  {
    var hollow := seq(|calls| + 1, k requires 0 <= k <= |calls| => Hollow(RunOf(s, calls[..k]), p));
    var made, cleared := HollowedBy(s, calls, p), ClearedBy(s, calls, p);
    forall k | 0 <= k < |calls| ensures hollow[k + 1] == (made[k] || (hollow[k] && !cleared[k])) {
      RunStep(s, calls, k);
      AfterHollow(RunOf(s, calls[..k]), calls[k], p);
    }
    Histories.BadIffCaused(hollow, made, cleared);
    assert calls[..0] == [] && calls[..|calls|] == calls;
  }

  /** A completed CreateVolume leaves a volume without a directory if and only if it finds such a
      view. */
  lemma CreateOverHollow(s: Store, path: string, goes: Schedule)
    requires goes(0) && goes(1)
    ensures var t := After(s, Call.CreateVolume(path, goes));
            path in t.views && path in t.quotas && (path !in t.dirs <==> Hollow(s, path))
  {
  }

  /** Such runs exist: a delete stopped between data and view, and the volume created again. */
  method TornDeleteHollows(path: string) returns (backend: Backend, ok: bool)
    ensures fresh(backend) && ok && path in backend.quotas && path in backend.views && path !in backend.dirs
  {
    backend := new Backend();
    ok := backend.CreateVolume(path, k => true);
    ghost var s := backend.State();
    assert Named(s, path) == {path};
    var torn: Schedule := k => k < 2;
    DeletedIs(s, path, false, torn, path);
    ok := backend.DeleteVolume(path, false, torn);
    ok := backend.CreateVolume(path, k => true);
  }

  /** Not stopped between its first and its second effect. */
  predicate Whole(c: Call) {
    match c
    case CreateVolume(_, goes) => goes(0) ==> goes(1)
    case DeleteSnapshot(_, _, goes) => goes(0) ==> goes(1)
    case _ => true
  }

  predicate Apart(paths: set<string>) {
    forall p, q :: p in paths && q in paths && Contains(p, q) ==> p == q
  }

  /** Over such paths the containment query finds only the path's own snapshots. */
  lemma ApartNamesOwn(s: Store, paths: set<string>, path: string)
    requires Apart(paths) && path in paths && s.snapshots.Values <= paths
    ensures HasSnapshots(s, path) <==> OwnSnapshot(s, path)
  {
    OwnIsContained(s, path);
    if HasSnapshots(s, path) {
      var id :| id in s.snapshots && Contains(s.snapshots[id], path);
      assert s.snapshots[id] in s.snapshots.Values;
    }
  }

  function InUse(s: Store): set<string> {
    s.dirs + s.quotas + s.snapshots.Values
  }

  lemma WholeLosesNothing(s: Store, c: Call, paths: set<string>)
    requires Whole(c) && Apart(paths) && InUse(s) <= paths
    ensures Loses(s, c) == {}
  {
    if c.DeleteSnapshot? && c.id in s.snapshots {
      assert s.snapshots[c.id] in s.snapshots.Values;
      assert Dropped(s, c.id).snapshots.Values <= s.snapshots.Values;
      ApartNamesOwn(Dropped(s, c.id), paths, s.snapshots[c.id]);
    }
  }

  lemma OtherPathsKeep(s: Store, s': Store, id: nat)
    requires id in s.snapshots && s' == s.(snapshots := s.snapshots - {id})
    ensures forall d :: d != s.snapshots[id] ==> OwnSnapshot(s', d) == OwnSnapshot(s, d)
  {
    forall d | d != s.snapshots[id] && OwnSnapshot(s, d) ensures OwnSnapshot(s', d) {
      var i :| i in s.snapshots && s.snapshots[i] == d;
      assert i in s'.snapshots;
    }
  }

  /** Dropping the snapshot of a deleted volume a, while volume b has one and contains a. */
  lemma HiddenSnapshot(a: string, b: string, goes: Schedule)
    requires a != b && Contains(b, a) && goes(0)
    ensures var s := Store({a, b}, {b}, {b}, map[1 := a, 2 := b]);
            a in Loses(s, Call.DeleteSnapshot(1, false, goes))
  {
    var s := Store({a, b}, {b}, {b}, map[1 := a, 2 := b]);
    var t := Dropped(s, 1);
    assert t.snapshots == map[2 := b];
    assert HasSnapshots(t, a) by { assert 2 in t.snapshots && Contains(t.snapshots[2], a); }
  }

  /** Create a volume on a path not yet in use, and snapshot it. */
  method AddVolume(backend: Backend, b: string, id: nat)
    requires b !in InUse(backend.State()) && b !in backend.views && backend.quotas == {} && id !in backend.snapshots
    modifies backend
    ensures backend.dirs == old(backend.dirs) + {b} && backend.views == old(backend.views) + {b}
    ensures backend.quotas == {b} && backend.snapshots == old(backend.snapshots)[id := b]
  {
    var ok := backend.CreateVolume(b, k => true);
    assert Named(backend.State(), b) == {b};
    ok := backend.CreateSnapshot(b, id);
  }

  /** A volume that is deleted while it has a snapshot. */
  method DeletedWithSnapshot(a: string) returns (backend: Backend)
    ensures fresh(backend) && backend.State() == Store({a}, {}, {}, map[1 := a])
  {
    backend := new Backend();
    AddVolume(backend, a, 1);
    ghost var s := backend.State();
    assert Named(s, a) == {a};
    assert OwnSnapshot(s, a) by { assert 1 in s.snapshots && s.snapshots[1] == a; }
    var ok := backend.DeleteVolume(a, false, k => true);
    assert backend.State() == Deleted(s, a);
  }

  /** The condition on paths is exact. For any path b that contains another path a, deleting
      volume a, then its only snapshot, leaves the directory of a behind while b has a snapshot. */
  method ContainedPathLeavesOrphan(a: string, b: string) returns (backend: Backend)
    requires a != b && Contains(b, a)
    ensures fresh(backend) && a in Orphans(backend.State()) && 1 !in backend.snapshots
  {
    var goes: Schedule := k => true;
    backend := DeletedWithSnapshot(a);
    AddVolume(backend, b, 2);
    assert backend.State() == Store({a, b}, {b}, {b}, map[1 := a, 2 := b]);
    HiddenSnapshot(a, b, goes);
    var _ := backend.DeleteSnapshot(1, false, goes);
  }

  /** So is the one on torn calls: a create stopped before its quota leaves a directory that no
      DeleteVolume of that name, even a completed one, removes. */
  method TornCreateLeavesOrphan(path: string, name: string, trash: bool) returns (backend: Backend, ok: bool)
    ensures fresh(backend) && ok && path in Orphans(backend.State())
  {
    backend := new Backend();
    ok := backend.CreateVolume(path, k => k == 0);
    assert Named(backend.State(), name) == {};
    ok := backend.DeleteVolume(name, trash, k => true);
  }

  /** And a torn DeleteSnapshot, retried to completion. */
  method TornDeleteLeavesOrphan(path: string) returns (backend: Backend, ok: bool)
    ensures fresh(backend) && ok && path in Orphans(backend.State())
  {
    backend := DeletedWithSnapshot(path);
    ghost var s := backend.State();
    assert Dropped(s, 1).snapshots == map[];
    var torn: Schedule := k => k == 0;
    assert path in Loses(s, Call.DeleteSnapshot(1, false, torn));
    ok := backend.DeleteSnapshot(1, false, torn);
    ok := backend.DeleteSnapshot(1, false, k => true);
  }

  /** Such paths exist, for example volumes v1 and v10 of one export. */
  lemma ContainedPathExample()
    ensures "/v1" != "/v10" && Contains("/v10", "/v1")
  {
    assert OccursAt("/v1", "/v10", 0);
  }
}
