/** What the calls of DataDirectory mean in terms of paths and snapshots: laws of `After` that do not
    go through its definition. */
module DirectoryMeaning {
  import opened DataDirectory
  import opened Faults
  import opened Lists
  import opened Strings

  lemma ContainsExact(s: string, part: string)
    ensures Contains(s, part) <==> exists pre, post :: s == pre + part + post
  {
    if Contains(s, part) {
      var i: nat :| i <= |s| && OccursAt(part, s, i);
      assert s == s[..i] + part + s[i + |part|..];
    }
    if pre, post :| s == pre + part + post {
      assert s[|pre|..|pre| + |part|] == part;
      assert OccursAt(part, s, |pre|);
    }
  }

  /** Exactly one volume has a path that ends with the id: this one. */
  predicate OnlyVolume(s: Store, name: string, q: string) {
    q in s.quotas && EndsWith(q, name) && forall p :: p in s.quotas && EndsWith(p, name) ==> p == q
  }

  lemma OnlyIsNamed(s: Store, name: string, q: string)
    ensures OnlyVolume(s, name, q) <==> Named(s, name) == {q}
  {
    assert forall p :: p in s.quotas && EndsWith(p, name) <==> p in Named(s, name);
  }

  /** A snapshot whose path contains the volume's. */
  ghost predicate SnapshotAbove(s: Store, q: string) {
    exists id :: id in s.snapshots && Contains(s.snapshots[id], q)
  }

  /** In trash mode such a snapshot makes DeleteVolume fail, and nothing changes, wherever it stops. */
  lemma SnapshotBarsDelete(s: Store, name: string, q: string, goes: Schedule)
    requires OnlyVolume(s, name, q) && SnapshotAbove(s, q)
    ensures After(s, Call.DeleteVolume(name, true, goes)) == s
    ensures !(goes(0) && Completes(s, name, true, goes))
  {
    OnlyIsNamed(s, name, q);
    CompletesIs(s, name, true, goes, q);
    if goes(0) { DeletedIs(s, name, true, goes, q); }
  }

  /** Without one, or outside trash mode, the undisturbed call completes: view and quota of the volume
      go, its directory too unless a snapshot was taken of it, and nothing else. */
  lemma DeleteGoesThrough(s: Store, name: string, q: string, trash: bool, goes: Schedule)
    requires OnlyVolume(s, name, q) && forall k :: goes(k)
    requires trash ==> !SnapshotAbove(s, q)
    ensures Completes(s, name, trash, goes)
    ensures var t := After(s, Call.DeleteVolume(name, trash, goes));
            && t.views == s.views - {q} && t.quotas == s.quotas - {q} && t.snapshots == s.snapshots
            && t.dirs == if exists id :: id in s.snapshots && s.snapshots[id] == q then s.dirs else s.dirs - {q}
  {
    OnlyIsNamed(s, name, q);
    CompletesIs(s, name, trash, goes, q);
    DeletedIs(s, name, trash, goes, q);
  }

  /** The order: while the data is there nothing else has gone, and the quota goes only after the view. */
  lemma DeleteOrder(s: Store, name: string, q: string, trash: bool, goes: Schedule)
    requires OnlyVolume(s, name, q) && q in s.dirs && q in s.views
    requires !(exists id :: id in s.snapshots && s.snapshots[id] == q)
    ensures var t := After(s, Call.DeleteVolume(name, trash, goes));
            && (q in t.dirs ==> t == s) && (q in t.views ==> q in t.quotas)
            && (q !in t.quotas ==> goes(0) && Completes(s, name, trash, goes))
  {
    OnlyIsNamed(s, name, q);
    CompletesIs(s, name, trash, goes, q);
    if goes(0) { DeletedIs(s, name, trash, goes, q); }
  }

  /** No volume of that name: done. Several: an error. Nothing changes either way. */
  lemma DeleteFindsNotOne(s: Store, name: string, trash: bool, goes: Schedule)
    ensures (forall p :: p in s.quotas ==> !EndsWith(p, name)) ==>
              Completes(s, name, trash, goes) && After(s, Call.DeleteVolume(name, trash, goes)) == s
    ensures forall p, q :: p in s.quotas && q in s.quotas && p != q && EndsWith(p, name) && EndsWith(q, name) ==>
              !Completes(s, name, trash, goes) && After(s, Call.DeleteVolume(name, trash, goes)) == s
  {
    var found := Named(s, name);
    if forall p :: p in s.quotas ==> !EndsWith(p, name) { assert found == {}; }
    forall p, q | p in s.quotas && q in s.quotas && p != q && EndsWith(p, name) && EndsWith(q, name)
      ensures |found| > 1
    {
      assert p in found && q in found;
      TwoAreTooMany(found, p, q);
    }
  }

  /** CreateSnapshot records the path of the one volume that has the name; none or several: no snapshot. */
  lemma SnapshotOf(s: Store, name: string, id: nat, q: string)
    requires id !in s.snapshots
    ensures var t := After(s, Call.CreateSnapshot(name, id));
            && (OnlyVolume(s, name, q) ==> t == s.(snapshots := s.snapshots[id := q]))
            && ((forall p :: p in s.quotas ==> !EndsWith(p, name)) ==> t == s)
            && (q in s.quotas && EndsWith(q, name) && !OnlyVolume(s, name, q) ==> t == s)
  {
    OnlyIsNamed(s, name, q);
    var found := Named(s, name);
    if OnlyVolume(s, name, q) {
      assert |{q}| == 1;
    } else if q in found {
      var p :| p in found && p != q;
      TwoAreTooMany(found, p, q);
    } else if forall p :: p in s.quotas ==> !EndsWith(p, name) {
      assert found == {};
    }
  }

  /** An undisturbed DeleteSnapshot: the snapshot goes, and with it the directory exactly if its path
      has no quota and is contained in no other snapshot's path. With clone streams, nothing changes. */
  lemma DropExact(s: Store, id: nat, streaming: bool, goes: Schedule)
    requires id in s.snapshots && forall k :: goes(k)
    ensures var t, path := After(s, Call.DeleteSnapshot(id, streaming, goes)), s.snapshots[id];
            if streaming then t == s
            else
              && t.snapshots == s.snapshots - {id} && t.views == s.views && t.quotas == s.quotas
              && var kept := path in s.quotas
                             || exists i :: i in s.snapshots && i != id && Contains(s.snapshots[i], path);
                 t.dirs == if kept then s.dirs else s.dirs - {path}
  {
    var t, path := Dropped(s, id), s.snapshots[id];
    if i :| i in s.snapshots && i != id && Contains(s.snapshots[i], path) {
      assert i in t.snapshots && t.snapshots[i] == s.snapshots[i];
    }
    if i :| i in t.snapshots && Contains(t.snapshots[i], path) {
      assert i in s.snapshots && i != id;
    }
  }

  /** Create, delete and create again, undisturbed: after each create the volume has view, quota and
      directory, and the delete takes all three away. */
  lemma CreateDeleteCreate(s: Store, path: string, name: string, goes: Schedule)
    requires path !in s.quotas && path !in s.views && path !in s.dirs && forall k :: goes(k)
    requires EndsWith(path, name) && forall p :: p in s.quotas ==> !EndsWith(p, name)
    requires !SnapshotAbove(s, path)
    ensures var made := After(s, Call.CreateVolume(path, goes));
            && made == Store(s.dirs + {path}, s.views + {path}, s.quotas + {path}, s.snapshots)
            && After(made, Call.DeleteVolume(name, true, goes)) == s
  {
    var made := After(s, Call.CreateVolume(path, goes));
    assert OnlyVolume(made, name, path);
    assert !SnapshotAbove(made, path);
    DeleteGoesThrough(made, name, path, true, goes);
    if id :| id in s.snapshots && s.snapshots[id] == path { ContainsSelf(path); }
  }
}
