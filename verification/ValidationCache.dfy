/** The validation cache of lru_cache.py and the NFS ModifyVolumeGroupMembership of
    plugins/volumegroup.py that uses it to skip a check. */
module ValidationCache {
  import opened Lists
  import opened Strings

  // ---------------------------------------------------------------- the cache as a value

  /** `order` lists the cached groups, least recently used first. */
  datatype Cache = Cache(order: seq<string>, entries: map<string, set<string>>)

  predicate WellFormed(c: Cache, maxSize: nat) {
    Distinct(c.order) && Elements(c.order) == c.entries.Keys && |c.order| <= maxSize
  }

  /** A lookup that hits makes its group the most recently used. */
  function Touch(c: Cache, g: string): Cache {
    if g in c.entries then c.(order := Without(c.order, g) + [g]) else c
  }

  predicate AllValidated(c: Cache, g: string, ids: seq<string>) {
    g in c.entries && forall v :: v in ids ==> v in c.entries[g]
  }

  /** Drop the least recently used group when a new one would not fit. */
  function MakeRoom(c: Cache, g: string, maxSize: nat): Cache {
    if g !in c.entries && |c.order| >= maxSize && c.order != [] then
      Cache(c.order[1..], c.entries - {c.order[0]})
    else c
  }

  function Add(c: Cache, g: string, ids: seq<string>, maxSize: nat): Cache {
    var room := MakeRoom(c, g, maxSize);
    var known := if g in c.entries then c.entries[g] else {};
    Cache(Without(room.order, g) + [g], room.entries[g := known + Elements(ids)])
  }

  /** `clear(volume_group_id)`; an empty id clears everything. */
  function Cleared(c: Cache, g: string): Cache {
    if g == "" then Cache([], map[]) else Cache(Without(c.order, g), c.entries - {g})
  }

  lemma ElementsCons(x: string, xs: seq<string>)
    ensures Elements([x] + xs) == {x} + Elements(xs)
    ensures Distinct([x] + xs) <==> Distinct(xs) && x !in xs
  {
    var ys := [x] + xs;
    assert forall i :: 0 <= i < |xs| ==> ys[i + 1] == xs[i];
    if Distinct(xs) && x !in xs {
      assert forall j :: 0 < j < |ys| ==> ys[j] == xs[j - 1];
    }
    if Distinct(ys) {
      forall i, j | 0 <= i < j < |xs| ensures xs[i] != xs[j] { assert ys[i + 1] != ys[j + 1]; }
      forall i | 0 <= i < |xs| ensures xs[i] != x { assert ys[0] != ys[i + 1]; }
    }
  }

  lemma {:induction false} WithoutCorrect(xs: seq<string>, x: string)
    ensures Elements(Without(xs, x)) == Elements(xs) - {x}
    ensures |Without(xs, x)| <= |xs| && (x in xs ==> |Without(xs, x)| < |xs|)
    ensures Distinct(xs) ==> Distinct(Without(xs, x))
    decreases |xs|
  {
    if xs != [] {
      var tail := xs[1..];
      assert xs == [xs[0]] + tail;
      ElementsCons(xs[0], tail);
      WithoutCorrect(tail, x);
      ElementsCons(xs[0], Without(tail, x));
      assert xs[0] in Without(tail, x) ==> xs[0] in Elements(Without(tail, x));
    }
  }

  lemma AppendDistinct(xs: seq<string>, g: string)
    requires Distinct(xs) && g !in xs
    ensures Distinct(xs + [g]) && Elements(xs + [g]) == Elements(xs) + {g}
  {
  }

  lemma TouchWellFormed(c: Cache, g: string, maxSize: nat)
    requires WellFormed(c, maxSize)
    ensures WellFormed(Touch(c, g), maxSize)
  {
    WithoutCorrect(c.order, g);
    if g in c.entries {
      assert g in Elements(c.order);
      assert g !in Elements(Without(c.order, g));
      AppendDistinct(Without(c.order, g), g);
    }
  }

  /** Adding keeps the bound; every group but the evicted one keeps its ids. */
  lemma AddWellFormed(c: Cache, g: string, ids: seq<string>, maxSize: nat)
    requires WellFormed(c, maxSize) && maxSize >= 1
    ensures WellFormed(Add(c, g, ids, maxSize), maxSize)
  {
    var room := MakeRoom(c, g, maxSize);
    assert WellFormed(room, maxSize) by {
      if room != c {
        assert c.order == [c.order[0]] + room.order;
        assert Elements(c.order) == {c.order[0]} + Elements(room.order);
      }
    }
    WithoutCorrect(room.order, g);
    assert g !in Elements(Without(room.order, g));
    AppendDistinct(Without(room.order, g), g);
    if g in room.entries { assert g in Elements(room.order); }
  }

  lemma ClearedWellFormed(c: Cache, g: string, maxSize: nat)
    requires WellFormed(c, maxSize)
    ensures WellFormed(Cleared(c, g), maxSize)
  {
    WithoutCorrect(c.order, g);
  }

  // ---------------------------------------------------------------- the class

  class VolumeGroupValidationCache {
    const maxSize: nat
    var order: seq<string>
    var entries: map<string, set<string>>

    function Value(): Cache
      reads this
    {
      Cache(order, entries)
    }

    ghost predicate Valid()
      reads this
    {
      WellFormed(Value(), maxSize)
    }

    constructor (maxSize: nat)
      ensures Valid() && this.maxSize == maxSize && Value() == Cache([], map[])
    {
      this.maxSize := maxSize;
      order, entries := [], map[];
    }

    /** `self._cache.get(g)`. */
    method Lookup(g: string) returns (found: bool, ids: set<string>)
      requires Valid()
      modifies this`order
      ensures Valid() && Value() == Touch(old(Value()), g)
      ensures found == (g in entries) && (found ==> ids == entries[g])
    {
      TouchWellFormed(Value(), g, maxSize);
      found, ids := false, {};
      if g in entries {
        order := Without(order, g) + [g];
        found, ids := true, entries[g];
      }
    }

    method AreAllValidated(g: string, ids: seq<string>) returns (all: bool)
      requires Valid()
      modifies this`order
      ensures Valid() && Value() == Touch(old(Value()), g)
      ensures all == AllValidated(Value(), g, ids)
    {
      var found, validated := Lookup(g);
      if !found { return false; }
      for i := 0 to |ids|
        invariant forall k :: 0 <= k < i ==> ids[k] in validated
      {
        if ids[i] !in validated { return false; }
      }
      return true;
    }

    /** Fails only for a cache of size zero. */
    method AddValidated(g: string, ids: seq<string>) returns (stored: bool)
      requires Valid()
      modifies this
      ensures Valid() && stored == (maxSize >= 1)
      ensures Value() == if stored then Add(old(Value()), g, ids, maxSize) else old(Value())
    {
      if maxSize == 0 {
        NothingCached(Value());
        return false;
      }
      ghost var before := Value();
      AddWellFormed(before, g, ids, maxSize);
      var found, known := Lookup(g);
      if !found { known := {}; }
      TouchThenAdd(before, g, ids, maxSize);
      if g !in entries && |order| >= maxSize {
        order, entries := order[1..], entries - {order[0]};
      }
      order := Without(order, g) + [g];
      entries := entries[g := known + Elements(ids)];
      return true;
    }

    method Clear(g: string)
      requires Valid()
      modifies this
      ensures Valid() && Value() == Cleared(old(Value()), g)
    {
      ClearedWellFormed(Value(), g, maxSize);
      if g != "" {
        order, entries := Without(order, g), entries - {g};
      } else {
        order, entries := [], map[];
      }
    }
  }

  lemma NothingCached(c: Cache)
    requires WellFormed(c, 0)
    ensures c == Cache([], map[])
  {
    assert c.entries.Keys == {};
  }

  lemma {:induction false} WithoutTwice(xs: seq<string>, x: string)
    ensures Without(Without(xs, x) + [x], x) == Without(xs, x)
    decreases |xs|
  {
    if xs == [] {
      assert [x][1..] == [];
    } else if xs[0] == x {
      WithoutTwice(xs[1..], x);
    } else {
      assert (Without(xs, x) + [x])[1..] == Without(xs[1..], x) + [x];
      WithoutTwice(xs[1..], x);
    }
  }

  lemma TouchThenAdd(c: Cache, g: string, ids: seq<string>, maxSize: nat)
    ensures Add(Touch(c, g), g, ids, maxSize) == Add(c, g, ids, maxSize)
  {
    WithoutTwice(c.order, g);
  }

  // ---------------------------------------------------------------- least recently used

  /** Time of the last use of a group, given the groups used so far. */
  function LastUse(uses: seq<string>, g: string): int {
    if uses == [] then -1
    else if uses[|uses| - 1] == g then |uses| - 1
    else LastUse(uses[..|uses| - 1], g)
  }

  ghost predicate ByLastUse(order: seq<string>, uses: seq<string>) {
    forall i, j :: 0 <= i < j < |order| ==> LastUse(uses, order[i]) < LastUse(uses, order[j])
  }

  lemma {:induction false} LastUseBound(uses: seq<string>, g: string)
    ensures -1 <= LastUse(uses, g) < |uses|
    decreases |uses|
  {
    if uses != [] { LastUseBound(uses[..|uses| - 1], g); }
  }

  lemma ConsByLastUse(x: string, xs: seq<string>, uses: seq<string>)
    requires ByLastUse(xs, uses) && forall y :: y in xs ==> LastUse(uses, x) < LastUse(uses, y)
    ensures ByLastUse([x] + xs, uses)
  {
  }

  lemma TailByLastUse(order: seq<string>, uses: seq<string>)
    requires order != [] && ByLastUse(order, uses)
    ensures ByLastUse(order[1..], uses)
    ensures forall y :: y in order[1..] ==> LastUse(uses, order[0]) < LastUse(uses, y)
  {
    var tail := order[1..];
    assert forall i :: 0 <= i < |tail| ==> tail[i] == order[i + 1];
  }

  lemma {:induction false} WithoutKeepsOrder(order: seq<string>, g: string, uses: seq<string>)
    requires ByLastUse(order, uses)
    ensures ByLastUse(Without(order, g), uses)
    ensures forall x :: x in Without(order, g) ==> x in order && x != g
    decreases |order|
  {
    if order != [] {
      TailByLastUse(order, uses);
      WithoutKeepsOrder(order[1..], g, uses);
      if order[0] != g { ConsByLastUse(order[0], Without(order[1..], g), uses); }
    }
  }

  /** Using a group and moving it to the end keeps the order by last use. */
  lemma UseKeepsOrder(order: seq<string>, g: string, uses: seq<string>)
    requires ByLastUse(order, uses)
    ensures ByLastUse(Without(order, g) + [g], uses + [g])
  {
    WithoutKeepsOrder(order, g, uses);
    var uses' := uses + [g];
    assert uses'[..|uses|] == uses;
    forall x | x in Without(order, g) ensures LastUse(uses', x) == LastUse(uses, x) < LastUse(uses', g) {
      LastUseBound(uses, x);
    }
  }

  /** Adding to an ordered cache keeps it ordered by last use. */
  lemma AddKeepsOrder(c: Cache, g: string, ids: seq<string>, maxSize: nat, uses: seq<string>)
    requires ByLastUse(c.order, uses)
    ensures ByLastUse(Add(c, g, ids, maxSize).order, uses + [g])
  {
    var room := MakeRoom(c, g, maxSize);
    assert ByLastUse(room.order, uses);
    UseKeepsOrder(room.order, g, uses);
  }

  /** The group it evicts was used before every group it keeps, and those keep their ids. */
  lemma AddEvictsLeastRecent(
    c: Cache, g: string, ids: seq<string>, maxSize: nat, uses: seq<string>, lost: string, kept: string)
    requires WellFormed(c, maxSize) && ByLastUse(c.order, uses)
    requires lost in c.entries && lost !in Add(c, g, ids, maxSize).entries
    requires kept in c.entries && kept in Add(c, g, ids, maxSize).entries
    ensures LastUse(uses, lost) < LastUse(uses, kept)
    ensures Add(c, g, ids, maxSize).entries[kept] == c.entries[kept]
  {
    assert lost == c.order[0];
    assert kept in Elements(c.order);
    var j :| 0 <= j < |c.order| && c.order[j] == kept;
  }

  // ---------------------------------------------------------------- volume names

  /** `os.path.basename`. */
  function Basename(path: string): string {
    if '/' in path then Basename(path[IndexOf(path, '/') + 1..]) else path
  }

  function Basenames(ids: seq<string>): seq<string> {
    seq(|ids|, i requires 0 <= i < |ids| => Basename(ids[i]))
  }

  // ---------------------------------------------------------------- the check that the cache skips

  /** The volumes that the check takes to be in the base directory: the names of the views whose
      path starts with it (a `path__startswith` query). */
  function Listing(views: set<string>, dir: string): set<string> {
    set p | p in views && dir <= p :: Basename(p)
  }

  /** `_validate_volume_group_membership` passes. */
  predicate Validates(views: set<string>, dir: string, ids: seq<string>) {
    forall v :: v in Basenames(ids) ==> v in Listing(views, dir)
  }

  /** The path is inside the directory, at any depth. */
  predicate Inside(p: string, dir: string) {
    (if EndsWith(dir, "/") then dir else dir + "/") <= p
  }

  /** A view of that name is inside the directory. */
  ghost predicate InDir(views: set<string>, dir: string, v: string) {
    exists p :: p in views && Inside(p, dir) && Basename(p) == v
  }

  /** Every volume inside the directory is listed. */
  lemma ListingComplete(views: set<string>, dir: string, v: string)
    requires InDir(views, dir, v)
    ensures v in Listing(views, dir)
  {
    var p :| p in views && Inside(p, dir) && Basename(p) == v;
    assert dir <= p;
  }

  lemma {:induction false} BasenameAfter(head: string, name: string)
    requires '/' !in name
    ensures Basename(head + "/" + name) == name
    decreases |head|
  {
    var path := head + "/" + name;
    var n := IndexOf(path, '/');
    assert path[|head|] == '/';
    assert n <= |head|;
    if n < |head| {
      assert path[n + 1..] == head[n + 1..] + "/" + name;
      BasenameAfter(head[n + 1..], name);
    } else {
      assert path[n + 1..] == name;
    }
  }

  /** A view beside the directory, whose path starts with the same text. */
  function Sibling(dir: string, name: string): string {
    dir + "2" + "/" + name
  }

  lemma SiblingOutside(dir: string, name: string)
    requires !EndsWith(dir, "/") && '/' !in name
    ensures dir <= Sibling(dir, name) && !Inside(Sibling(dir, name), dir) && Basename(Sibling(dir, name)) == name
  {
    var p := Sibling(dir, name);
    BasenameAfter(dir + "2", name);
    assert p[|dir|] == '2' && (dir + "/")[|dir|] == '/';
  }

  lemma ListedIsInside(views: set<string>, dir: string, v: string)
    requires EndsWith(dir, "/") && v in Listing(views, dir)
    ensures InDir(views, dir, v)
  {
    var p :| p in views && dir <= p && Basename(p) == v;
    assert Inside(p, dir);
  }

  /** The check accepts only volumes inside the base directory, whatever views there are, if and only
      if the directory is given with a trailing slash. */
  lemma ListingExact(dir: string)
    ensures (forall views: set<string>, v: string :: v in Listing(views, dir) ==> InDir(views, dir, v))
            <==> EndsWith(dir, "/")
  {
    if EndsWith(dir, "/") {
      forall views: set<string>, v: string | v in Listing(views, dir) ensures InDir(views, dir, v) {
        ListedIsInside(views, dir, v);
      }
    } else {
      var views := {Sibling(dir, "v")};
      SiblingOutside(dir, "v");
      assert "v" in Listing(views, dir);
      assert !InDir(views, dir, "v");
    }
  }

  // ---------------------------------------------------------------- Modify calls, interleaved

  datatype Pc =
    | Checking     // about to ask the cache
    | Validating   // about to list the base directory
    | Adding       // about to record the validated ids
    | Succeeded | Failed

  datatype Call = Call(group: string, ids: seq<string>, pc: Pc)

  /** A check for a group: the base directory and the views there were. */
  datatype Validation = Validation(group: string, dir: string, views: set<string>)

  /** `uses` lists the groups looked up or added, in order. */
  datatype State = State(cache: Cache, calls: map<nat, Call>, history: seq<Validation>, uses: seq<string>)

  datatype Action =
    | Start(call: nat, group: string, ids: seq<string>)
    | Advance(call: nat, dir: string, views: set<string>)   // the group's source_dir and the views now
    | Fail(call: nat)
    | Clear(group: string)

  function Goto(s: State, c: nat, pc: Pc): State
    requires c in s.calls
  {
    s.(calls := s.calls[c := s.calls[c].(pc := pc)])
  }

  function Apply(s: State, a: Action, maxSize: nat): State {
    match a
    case Start(c, group, ids) =>
      if c in s.calls then s
      else s.(calls := s.calls[c := Call(group, Basenames(ids), if ids == [] then Succeeded else Checking)])
    case Advance(c, dir, views) =>
      if c !in s.calls then s
      else
        var call := s.calls[c];
        (match call.pc
         case Checking =>
           var touched := s.(cache := Touch(s.cache, call.group), uses := s.uses + [call.group]);
           Goto(touched, c, if AllValidated(s.cache, call.group, call.ids) then Succeeded else Validating)
         case Validating =>
           var listed := s.(history := s.history + [Validation(call.group, dir, views)]);
           Goto(listed, c, if Validates(views, dir, call.ids) then Adding else Failed)
         case Adding =>
           if maxSize == 0 then Goto(s, c, Failed)
           else
             var added := Add(s.cache, call.group, call.ids, maxSize);
             Goto(s.(cache := added, uses := s.uses + [call.group]), c, Succeeded)
         case _ => s)
    case Fail(c) =>
      if c in s.calls && !s.calls[c].pc.Succeeded? then Goto(s, c, Failed) else s
    case Clear(g) => s.(cache := Cleared(s.cache, g))
  }

  function Run(actions: seq<Action>, maxSize: nat): State {
    if actions == [] then State(Cache([], map[]), map[], [], [])
    else Apply(Run(actions[..|actions| - 1], maxSize), actions[|actions| - 1], maxSize)
  }

  /** A check for the group has found the volume. */
  ghost predicate Backed(history: seq<Validation>, g: string, v: string) {
    exists i :: 0 <= i < |history| && history[i].group == g && v in Listing(history[i].views, history[i].dir)
  }

  ghost predicate CacheBacked(s: State) {
    forall g, v :: g in s.cache.entries && v in s.cache.entries[g] ==> Backed(s.history, g, v)
  }

  ghost predicate CallBacked(history: seq<Validation>, call: Call) {
    && (call.pc.Adding? || call.pc.Succeeded? ==> forall v :: v in call.ids ==> Backed(history, call.group, v))
    && Basenames(call.ids) == call.ids
  }

  ghost predicate Sound(s: State) {
    CacheBacked(s) && forall c :: c in s.calls ==> CallBacked(s.history, s.calls[c])
  }

  lemma {:induction false} BasenameTwice(path: string)
    ensures '/' !in Basename(path) && Basename(Basename(path)) == Basename(path)
    decreases |path|
  {
    if '/' in path { BasenameTwice(path[IndexOf(path, '/') + 1..]); }
  }

  lemma BackedGrows(history: seq<Validation>, more: Validation, g: string, v: string)
    ensures Backed(history, g, v) ==> Backed(history + [more], g, v)
    ensures more.group == g && v in Listing(more.views, more.dir) ==> Backed(history + [more], g, v)
  {
    var h := history + [more];
    assert h[|history|] == more;
    if Backed(history, g, v) {
      var i :| 0 <= i < |history| && history[i].group == g && v in Listing(history[i].views, history[i].dir);
      assert h[i] == history[i];
    }
  }

  lemma ValidateSound(s: State, c: nat, dir: string, views: set<string>, maxSize: nat)
    requires Sound(s) && c in s.calls && s.calls[c].pc.Validating?
    ensures Sound(Apply(s, Advance(c, dir, views), maxSize))
  {
    var more := Validation(s.calls[c].group, dir, views);
    var s' := Apply(s, Advance(c, dir, views), maxSize);
    forall g, v ensures Backed(s.history, g, v) ==> Backed(s'.history, g, v) {
      BackedGrows(s.history, more, g, v);
    }
    forall v | v in Listing(views, dir) ensures Backed(s'.history, more.group, v) {
      BackedGrows(s.history, more, more.group, v);
    }
    forall d | d in s'.calls ensures CallBacked(s'.history, s'.calls[d]) {
      assert CallBacked(s.history, s.calls[d]);
    }
  }

  lemma AddSound(s: State, c: nat, dir: string, views: set<string>, maxSize: nat)
    requires Sound(s) && c in s.calls && s.calls[c].pc.Adding?
    ensures Sound(Apply(s, Advance(c, dir, views), maxSize))
  {
    var call := s.calls[c];
    var s' := Apply(s, Advance(c, dir, views), maxSize);
    assert CallBacked(s.history, call);
    forall g, v | g in s'.cache.entries && v in s'.cache.entries[g] ensures Backed(s'.history, g, v) {
      if g == call.group && v in call.ids {
      } else {
        assert g in s.cache.entries && v in s.cache.entries[g];
      }
    }
  }

  lemma StartSound(s: State, c: nat, group: string, ids: seq<string>, maxSize: nat)
    requires Sound(s)
    ensures Sound(Apply(s, Start(c, group, ids), maxSize))
  {
    var named := Basenames(ids);
    forall i | 0 <= i < |ids| ensures Basename(named[i]) == named[i] { BasenameTwice(ids[i]); }
    assert Basenames(named) == named;
  }

  lemma ApplySound(s: State, a: Action, maxSize: nat)
    requires Sound(s)
    ensures Sound(Apply(s, a, maxSize))
  {
    match a
    case Start(c, group, ids) => StartSound(s, c, group, ids, maxSize);
    case Advance(c, dir, views) =>
      if c in s.calls {
        assert CallBacked(s.history, s.calls[c]);
        if s.calls[c].pc.Validating? { ValidateSound(s, c, dir, views, maxSize); }
        if s.calls[c].pc.Adding? { AddSound(s, c, dir, views, maxSize); }
      }
    case Fail(c) =>
      if c in s.calls { assert CallBacked(s.history, s.calls[c]); }
    case Clear(g) =>
  }

  lemma ApplyWellFormed(s: State, a: Action, maxSize: nat)
    requires WellFormed(s.cache, maxSize)
    ensures WellFormed(Apply(s, a, maxSize).cache, maxSize)
  {
    if a.Clear? { ClearedWellFormed(s.cache, a.group, maxSize); }
    if a.Advance? && a.call in s.calls {
      var call := s.calls[a.call];
      TouchWellFormed(s.cache, call.group, maxSize);
      if maxSize >= 1 { AddWellFormed(s.cache, call.group, call.ids, maxSize); }
    }
  }

  /** A use of a group that is not cached leaves the order as it is. */
  lemma OtherUseKeepsOrder(order: seq<string>, g: string, uses: seq<string>)
    requires ByLastUse(order, uses) && g !in order
    ensures ByLastUse(order, uses + [g])
  {
    var uses' := uses + [g];
    assert uses'[..|uses|] == uses;
    assert forall i :: 0 <= i < |order| ==> LastUse(uses', order[i]) == LastUse(uses, order[i]);
  }

  lemma ApplyOrdered(s: State, a: Action, maxSize: nat)
    requires ByLastUse(s.cache.order, s.uses) && WellFormed(s.cache, maxSize)
    ensures ByLastUse(Apply(s, a, maxSize).cache.order, Apply(s, a, maxSize).uses)
  {
    if a.Clear? { WithoutKeepsOrder(s.cache.order, a.group, s.uses); }
    if a.Advance? && a.call in s.calls {
      var call := s.calls[a.call];
      if call.pc.Checking? {
        if call.group in s.cache.entries {
          UseKeepsOrder(s.cache.order, call.group, s.uses);
        } else {
          assert call.group !in Elements(s.cache.order);
          OtherUseKeepsOrder(s.cache.order, call.group, s.uses);
        }
      }
      if call.pc.Adding? { AddKeepsOrder(s.cache, call.group, call.ids, maxSize, s.uses); }
    }
  }

  /** In every interleaving the cache is ordered by the time of last use. */
  lemma {:induction false} RunOrdered(actions: seq<Action>, maxSize: nat)
    ensures ByLastUse(Run(actions, maxSize).cache.order, Run(actions, maxSize).uses)
    decreases |actions|
  {
    if actions != [] {
      RunOrdered(actions[..|actions| - 1], maxSize);
      RunSound(actions[..|actions| - 1], maxSize);
      ApplyOrdered(Run(actions[..|actions| - 1], maxSize), actions[|actions| - 1], maxSize);
    }
  }

  lemma OnlyAddingDrops(s: State, a: Action, maxSize: nat, lost: string)
    requires !a.Clear? && lost in s.cache.entries && lost !in Apply(s, a, maxSize).cache.entries
    ensures a.Advance? && a.call in s.calls && maxSize > 0
    ensures Apply(s, a, maxSize).cache == Add(s.cache, s.calls[a.call].group, s.calls[a.call].ids, maxSize)
  {
  }

  lemma AddDrops(c: Cache, g: string, ids: seq<string>, maxSize: nat, lost: string, kept: string)
    requires WellFormed(c, maxSize) && lost in c.entries && lost !in Add(c, g, ids, maxSize).entries
    requires kept in c.entries && kept != lost
    ensures |c.order| == maxSize && kept in Add(c, g, ids, maxSize).entries
  {
  }

  lemma StepEvictsLeastRecent(s: State, a: Action, maxSize: nat, lost: string, kept: string)
    requires WellFormed(s.cache, maxSize) && ByLastUse(s.cache.order, s.uses) && !a.Clear?
    requires lost in s.cache.entries && lost !in Apply(s, a, maxSize).cache.entries
    requires kept in s.cache.entries && kept != lost
    ensures LastUse(s.uses, lost) < LastUse(s.uses, kept) && |s.cache.order| == maxSize
    ensures kept in Apply(s, a, maxSize).cache.entries
    ensures Apply(s, a, maxSize).cache.entries[kept] == s.cache.entries[kept]
  {
    OnlyAddingDrops(s, a, maxSize, lost);
    var call := s.calls[a.call];
    AddDrops(s.cache, call.group, call.ids, maxSize, lost, kept);
    AddEvictsLeastRecent(s.cache, call.group, call.ids, maxSize, s.uses, lost, kept);
  }

  /** In every interleaving a group that a step other than a clear drops is the one used least
      recently of all cached ones, is dropped for a new group in a full cache, and the others keep
      their ids. */
  lemma RunEvictsLeastRecent(actions: seq<Action>, a: Action, maxSize: nat, lost: string, kept: string)
    requires !a.Clear?
    requires var s := Run(actions, maxSize);
             && lost in s.cache.entries && lost !in Apply(s, a, maxSize).cache.entries
             && kept in s.cache.entries && kept != lost
    ensures var s := Run(actions, maxSize);
            && LastUse(s.uses, lost) < LastUse(s.uses, kept)
            && |s.cache.order| == maxSize
            && kept in Apply(s, a, maxSize).cache.entries
            && Apply(s, a, maxSize).cache.entries[kept] == s.cache.entries[kept]
  {
    RunSound(actions, maxSize);
    RunOrdered(actions, maxSize);
    StepEvictsLeastRecent(Run(actions, maxSize), a, maxSize, lost, kept);
  }

  lemma {:induction false} RunSound(actions: seq<Action>, maxSize: nat)
    ensures Sound(Run(actions, maxSize)) && WellFormed(Run(actions, maxSize).cache, maxSize)
    decreases |actions|
  {
    if actions != [] {
      RunSound(actions[..|actions| - 1], maxSize);
      var s := Run(actions[..|actions| - 1], maxSize);
      ApplySound(s, actions[|actions| - 1], maxSize);
      ApplyWellFormed(s, actions[|actions| - 1], maxSize);
    }
  }

  /** In every interleaving, with evictions and clears, a Modify call succeeds only if each of its
      volumes was found by a check for the same group, now or earlier: a view of that name whose
      path starts with the group's base directory. The cache never exceeds its bound. */
  lemma ModifySoundness(actions: seq<Action>, maxSize: nat, c: nat)
    requires var s := Run(actions, maxSize); c in s.calls && s.calls[c].pc.Succeeded?
    ensures var s := Run(actions, maxSize);
            && (forall v :: v in s.calls[c].ids ==> Backed(s.history, s.calls[c].group, v))
            && |s.cache.entries| <= maxSize
  {
    RunSound(actions, maxSize);
    var s := Run(actions, maxSize);
    assert CallBacked(s.history, s.calls[c]);
    EntriesBound(s.cache.order);
  }

  /** A check for the group has found the volume inside the base directory. */
  ghost predicate BackedInDir(history: seq<Validation>, g: string, v: string) {
    exists i :: 0 <= i < |history| && history[i].group == g && InDir(history[i].views, history[i].dir, v)
  }

  /** When base directories are given with a trailing slash, it was inside the base directory. */
  lemma ModifyInDir(actions: seq<Action>, maxSize: nat, c: nat, v: string)
    requires var s := Run(actions, maxSize);
             c in s.calls && s.calls[c].pc.Succeeded? && v in s.calls[c].ids
    requires forall k :: 0 <= k < |actions| && actions[k].Advance? ==> EndsWith(actions[k].dir, "/")
    ensures var s := Run(actions, maxSize); BackedInDir(s.history, s.calls[c].group, v)
  {
    ModifySoundness(actions, maxSize, c);
    HistoryDirs(actions, maxSize);
    var s := Run(actions, maxSize);
    var g := s.calls[c].group;
    var i :| 0 <= i < |s.history| && s.history[i].group == g && v in Listing(s.history[i].views, s.history[i].dir);
    ListedIsInside(s.history[i].views, s.history[i].dir, v);
  }

  lemma {:induction false} HistoryDirs(actions: seq<Action>, maxSize: nat)
    requires forall k :: 0 <= k < |actions| && actions[k].Advance? ==> EndsWith(actions[k].dir, "/")
    ensures forall i :: 0 <= i < |Run(actions, maxSize).history| ==>
              EndsWith(Run(actions, maxSize).history[i].dir, "/")
    decreases |actions|
  {
    if actions != [] {
      HistoryDirs(actions[..|actions| - 1], maxSize);
    }
  }

  /** Without one the driver accepts a volume beside the base directory: for every group, every such
      directory and every name there is a run in which a Modify call succeeds, and no view is inside
      the directory at all. */
  lemma SiblingAccepted(group: string, dir: string, name: string, maxSize: nat) returns (actions: seq<Action>)
    requires maxSize >= 1 && !EndsWith(dir, "/") && '/' !in name
    ensures var s := Run(actions, maxSize);
            && 0 in s.calls && s.calls[0] == Call(group, [name], Succeeded)
            && !BackedInDir(s.history, group, name)
  {
    var views := {Sibling(dir, name)};
    var start, step := Start(0, group, [name]), Advance(0, dir, views);
    SiblingOutside(dir, name);
    AloneSteps(group, dir, name, views, maxSize);
    RunAppend([], start, maxSize);
    RunAppend([start], step, maxSize);
    RunAppend([start, step], step, maxSize);
    RunAppend([start, step, step], step, maxSize);
    actions := [start, step, step, step];
    assert [] + [start] == [start] && [start] + [step] == [start, step];
    assert [start, step] + [step] == [start, step, step] && [start, step, step] + [step] == actions;
    assert !InDir(views, dir, name);
  }

  /** One call, before it has added anything to the cache. */
  function Alone(group: string, name: string, pc: Pc, history: seq<Validation>, uses: seq<string>): State {
    State(Cache([], map[]), map[0 := Call(group, [name], pc)], history, uses)
  }

  lemma AloneSteps(group: string, dir: string, name: string, views: set<string>, maxSize: nat)
    requires maxSize >= 1 && '/' !in name && name in Listing(views, dir)
    ensures Apply(State(Cache([], map[]), map[], [], []), Start(0, group, [name]), maxSize)
            == Alone(group, name, Checking, [], [])
    ensures var step, checked := Advance(0, dir, views), [Validation(group, dir, views)];
            && Apply(Alone(group, name, Checking, [], []), step, maxSize) == Alone(group, name, Validating, [], [group])
            && Apply(Alone(group, name, Validating, [], [group]), step, maxSize)
               == Alone(group, name, Adding, checked, [group])
            && var s := Apply(Alone(group, name, Adding, checked, [group]), step, maxSize);
               s.calls == map[0 := Call(group, [name], Succeeded)] && s.history == checked
  {
    assert Basename(name) == name && Basenames([name]) == [name];
    assert Validates(views, dir, [name]);
  }

  lemma RunAppend(actions: seq<Action>, a: Action, maxSize: nat)
    ensures Run(actions + [a], maxSize) == Apply(Run(actions, maxSize), a, maxSize)
  {
    assert (actions + [a])[..|actions|] == actions;
  }

  lemma {:induction false} EntriesBound(xs: seq<string>)
    ensures |Elements(xs)| <= |xs|
    decreases |xs|
  {
    if xs != [] {
      EntriesBound(xs[1..]);
      assert Elements(xs) == {xs[0]} + Elements(xs[1..]);
    }
  }

  // ---------------------------------------------------------------- what a Modify call answers

  /** The undisturbed steps of one call. */
  function Completed(s: State, c: nat, dir: string, views: set<string>, maxSize: nat): State {
    var step := Advance(c, dir, views);
    Apply(Apply(Apply(s, step, maxSize), step, maxSize), step, maxSize)
  }

  /** Each volume is the last component of the path of a view that starts with the directory. */
  ghost predicate AllListed(ids: seq<string>, dir: string, views: set<string>) {
    forall v :: v in ids ==> exists p :: p in views && |dir| <= |p| && p[..|dir|] == dir && Basename(p) == v
  }

  lemma ListedExactly(ids: seq<string>, dir: string, views: set<string>)
    requires Basenames(ids) == ids
    ensures Validates(views, dir, ids) <==> AllListed(ids, dir, views)
  {
    forall v ensures v in Listing(views, dir) <==>
                     exists p :: p in views && |dir| <= |p| && p[..|dir|] == dir && Basename(p) == v
    {
      if p :| p in views && |dir| <= |p| && p[..|dir|] == dir && Basename(p) == v { assert dir <= p; }
    }
  }

  /** An undisturbed Modify succeeds if and only if all its volumes are cached for the group, or all are
      listed under the base directory and the cache can hold a group; the views are looked at, and the
      cache changed, only if they are not all cached. */
  lemma ModifyAnswers(s: State, c: nat, dir: string, views: set<string>, maxSize: nat)
    requires c in s.calls && s.calls[c].pc.Checking? && Basenames(s.calls[c].ids) == s.calls[c].ids
    ensures var r, call := Completed(s, c, dir, views, maxSize), s.calls[c];
            var cached := call.group in s.cache.entries
                          && forall v :: v in call.ids ==> v in s.cache.entries[call.group];
            var known := if call.group in s.cache.entries then s.cache.entries[call.group] else {};
            && c in r.calls
            && (r.calls[c].pc.Succeeded? <==> cached || (AllListed(call.ids, dir, views) && maxSize >= 1))
            && (r.calls[c].pc.Failed? <==> !r.calls[c].pc.Succeeded?)
            && (cached ==> r.cache.entries == s.cache.entries && r.history == s.history)
            && (!cached && r.calls[c].pc.Succeeded? ==>
                  && call.group in r.cache.entries
                  && forall v :: v in r.cache.entries[call.group] <==> v in known || v in call.ids)
            && (!cached && !r.calls[c].pc.Succeeded? ==> r.cache.entries == s.cache.entries)
  {
    var call, step := s.calls[c], Advance(c, dir, views);
    ListedExactly(call.ids, dir, views);
    var s1 := Apply(s, step, maxSize);
    var s2 := Apply(s1, step, maxSize);
    var s3 := Apply(s2, step, maxSize);
    assert s1.calls[c].ids == call.ids && s2.calls[c].ids == call.ids;
    assert s1.cache.entries == s.cache.entries && s2.cache == s1.cache;
  }

  /** Clearing a group forgets that group and no other; clearing with no id forgets all. */
  lemma ClearForgets(s: State, g: string, maxSize: nat)
    ensures var r := Apply(s, Clear(g), maxSize).cache.entries;
            if g == "" then r == map[]
            else g !in r && forall h :: h in s.cache.entries && h != g ==> h in r && r[h] == s.cache.entries[h]
  {
  }
}
