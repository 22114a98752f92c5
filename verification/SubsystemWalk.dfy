/** `_find_subsystem_for_source_dir` of plugins/volumegroup.py: the upward search, through
    `os.path.dirname`, for the view that covers a directory. */
module SubsystemWalk {
  import opened Wrappers

  // ---------------------------------------------------------------- posixpath.dirname

  /** One past the last '/', 0 when there is none. */
  function AfterSlash(p: string): (n: nat)
    ensures n <= |p|
    ensures n > 0 ==> p[n - 1] == '/'
    ensures forall i :: n <= i < |p| ==> p[i] != '/'
  {
    if p == "" then 0
    else if p[|p| - 1] == '/' then |p|
    else AfterSlash(p[..|p| - 1])
  }

  /** `rstrip("/")`. */
  function TrimRight(p: string): (r: string)
    ensures r <= p
    ensures r != "" ==> r[|r| - 1] != '/'
    ensures forall i :: |r| <= i < |p| ==> p[i] == '/'
  {
    if p == "" || p[|p| - 1] != '/' then p else TrimRight(p[..|p| - 1])
  }

  /** `lstrip("/")`. */
  function TrimLeft(p: string): (r: string)
    ensures |r| <= |p| && p[|p| - |r|..] == r
    ensures r != "" ==> r[0] != '/'
    ensures forall i :: 0 <= i < |p| - |r| ==> p[i] == '/'
  {
    if p == "" || p[0] != '/' then p else TrimLeft(p[1..])
  }

  function Dirname(p: string): string {
    var head := p[..AfterSlash(p)];
    var trimmed := TrimRight(head);
    if trimmed == "" then head else trimmed   // a head of slashes only is kept
  }

  function Up(p: string, k: nat): string {
    if k == 0 then p else Dirname(Up(p, k - 1))
  }

  predicate DoubleSlash(p: string) {
    |p| >= 2 && p[0] == '/' && p[1] == '/'
  }

  // ---------------------------------------------------------------- ancestors

  /** v is a directory above p, other than the root. */
  predicate Above(v: string, p: string) {
    v != "" && v[|v| - 1] != '/' && |v| < |p| && v <= p && p[|v|] == '/'
  }

  /** A directory above p is Dirname(p) or above it. */
  lemma AboveDirname(v: string, p: string)
    requires Above(v, p)
    ensures var t := TrimRight(p[..AfterSlash(p)]);
            |v| <= |t| && (if |v| == |t| then v == t else Above(v, t))
  {
    var n := AfterSlash(p);
    var head := p[..n];
    assert |v| < n && head[|v| - 1] != '/';
  }

  lemma DirnameShape(p: string)
    requires !DoubleSlash(p)
    ensures var d := Dirname(p);
            if d == "" || d == "/" then forall v :: !Above(v, p)
            else Above(d, p) && !DoubleSlash(d) && forall v :: Above(v, p) ==> v == d || Above(v, d)
  {
    var head := p[..AfterSlash(p)];
    var trimmed := TrimRight(head);
    assert |head| >= 2 ==> head[1] == p[1] && head[0] == p[0];
    assert trimmed == "" ==> |head| < 2;
    assert head == "/" ==> trimmed == "";
    forall v | Above(v, p) ensures trimmed != "" && (v == trimmed || Above(v, trimmed)) {
      AboveDirname(v, p);
    }
  }

  /** A leading double slash is never climbed away. */
  lemma DoubleSlashStays(p: string)
    requires DoubleSlash(p)
    ensures DoubleSlash(Dirname(p))
  {
    var head := p[..AfterSlash(p)];
    assert head[0] == '/' && head[1] == '/';
    var trimmed := TrimRight(head);
    assert trimmed != "" ==> trimmed[0] == head[0];
  }

  // ---------------------------------------------------------------- termination

  predicate Stops(p: string, views: set<string>) {
    p == "" || p == "/" || p in views
  }

  ghost predicate Ends(source: string, views: set<string>) {
    exists k: nat :: k > 0 && Stops(Up(source, k), views)
  }

  lemma {:induction false} UpFromDirname(p: string, k: nat)
    ensures Up(Dirname(p), k) == Up(p, k + 1)
  {
    if k > 0 {
      UpFromDirname(p, k - 1);
    }
  }

  lemma {:induction false} PlainPathEnds(source: string) returns (k: nat)
    requires !DoubleSlash(source)
    ensures k > 0 && (Up(source, k) == "" || Up(source, k) == "/")
    decreases |source|
  {
    DirnameShape(source);
    var d := Dirname(source);
    if d == "" || d == "/" {
      assert Up(source, 0) == source;
      k := 1;
    } else {
      var j := PlainPathEnds(d);
      UpFromDirname(source, j);
      k := j + 1;
    }
  }

  lemma {:induction false} DoubleSlashUp(source: string, k: nat)
    requires DoubleSlash(source)
    ensures DoubleSlash(Up(source, k))
  {
    if k > 0 {
      DoubleSlashUp(source, k - 1);
      DoubleSlashStays(Up(source, k - 1));
    }
  }

  /** The loop ends exactly when the path has no leading double slash, or a view stops it. */
  lemma EndsExactly(source: string, views: set<string>)
    ensures Ends(source, views) <==>
            !DoubleSlash(source) || exists k: nat :: k > 0 && Up(source, k) in views
  {
    if !DoubleSlash(source) {
      var k := PlainPathEnds(source);
      assert Stops(Up(source, k), views);
    } else {
      forall k: nat ensures !(Up(source, k) == "" || Up(source, k) == "/") {
        DoubleSlashUp(source, k);
      }
      if Ends(source, views) {
        var k: nat :| k > 0 && Stops(Up(source, k), views);
        assert Up(source, k) in views;
      }
      if k: nat :| k > 0 && Up(source, k) in views {
        assert Stops(Up(source, k), views);
      }
    }
  }

  // ---------------------------------------------------------------- the search

  /** No view below `path` covers the source directory. */
  ghost predicate Passed(source: string, views: set<string>, path: string) {
    if DoubleSlash(source) then DoubleSlash(path)
    else if path == "" || path == "/" then forall v :: v in views ==> !Above(v, source)
    else
      && !DoubleSlash(path) && Above(path, source)
      && forall v :: v in views && Above(v, source) ==> v == path || Above(v, path)
  }

  lemma FirstStep(source: string, views: set<string>)
    ensures Passed(source, views, Dirname(source))
  {
    if DoubleSlash(source) { DoubleSlashStays(source); } else { DirnameShape(source); }
  }

  lemma NextStep(source: string, views: set<string>, path: string)
    requires Passed(source, views, path) && !Stops(path, views)
    ensures Passed(source, views, Dirname(path))
  {
    if DoubleSlash(source) { DoubleSlashStays(path); } else { DirnameShape(path); }
  }

  /** The k-th directory up is where the search stops. */
  ghost predicate FirstStop(source: string, views: set<string>, k: nat) {
    && k > 0 && Stops(Up(source, k), views)
    && forall j: nat :: 0 < j < k ==> !Stops(Up(source, j), views)
  }

  lemma {:induction false} StopIsFound(source: string, views: set<string>, last: nat) returns (k: nat)
    requires last > 0 && Stops(Up(source, last), views)
    ensures k <= last && FirstStop(source, views, k)
    decreases last
  {
    if j: nat :| 0 < j < last && Stops(Up(source, j), views) {
      k := StopIsFound(source, views, j);
    } else {
      k := last;
    }
  }

  lemma FoundIsNearest(source: string, views: set<string>, path: string)
    requires Passed(source, views, path) && path in views && path != "" && path != "/" && !DoubleSlash(source)
    ensures Above(path, source) && forall v :: v in views && Above(v, source) ==> |v| <= |path|
  {
  }

  /** The loop: it ends at the first stop. */
  method ClimbToView(views: set<string>, source: string, ghost last: nat) returns (path: string)
    requires FirstStop(source, views, last)
    ensures path == Up(source, last) && Passed(source, views, path)
  {
    ghost var i := 1;
    path := Dirname(source);
    assert Up(source, 0) == source;
    FirstStep(source, views);
    while path != "" && path != "/" && path !in views
      invariant 0 < i <= last && path == Up(source, i)
      invariant Passed(source, views, path)
      decreases last - i
    {
      NextStep(source, views, path);
      path := Dirname(path);
      i := i + 1;
    }
    assert Stops(Up(source, i), views);
  }

  /** The search: the first directory up that has a view, which is the nearest view above, or
      NOT_FOUND when there is none. */
  method FindSubsystem(views: set<string>, source: string) returns (r: Option<string>)
    requires Ends(source, views)
    ensures r.Some? ==> r.value in views && exists k: nat :: FirstStop(source, views, k) && r.value == Up(source, k)
    ensures r.None? ==> !DoubleSlash(source) && forall v :: v in views ==> !Above(v, source)
    ensures r.Some? && !DoubleSlash(source) ==>
              Above(r.value, source) && forall v :: v in views && Above(v, source) ==> |v| <= |r.value|
  {
    ghost var some: nat :| some > 0 && Stops(Up(source, some), views);
    ghost var last := StopIsFound(source, views, some);
    var path := ClimbToView(views, source, last);
    if path == "" || path == "/" { return None; }
    if !DoubleSlash(source) { FoundIsNearest(source, views, path); }
    return Some(path);
  }

  /** The prefix of member names: the rest of the source directory without its slashes. */
  function Relative(source: string, path: string): string
    requires |path| <= |source|
  {
    TrimLeft(source[|path|..])
  }

  lemma OneSlash(rest: string)
    requires rest != "" && rest[0] == '/'
    ensures "/" + TrimLeft(rest) == rest <==> !DoubleSlash(rest)
  {
    var rel := TrimLeft(rest);
    assert |rel| < |rest|;
    assert |rel| < |rest| - 1 ==> rest[1] == '/';
    assert |rel| == |rest| - 1 ==> rest[1..] == rel;
    assert |("/" + rel)| == 1 + |rel|;
  }

  lemma Cancel(a: string, b: string, c: string)
    ensures a + b == a + c <==> b == c
  {
    assert (a + b)[|a|..] == b && (a + c)[|a|..] == c;
  }

  /** The found path and the relative prefix rebuild the source directory, unless more than one
      slash separates them. */
  lemma RelativeRebuilds(source: string, path: string)
    requires Above(path, source)
    ensures path + ("/" + Relative(source, path)) == source <==>
            !DoubleSlash(source[|path|..])
  {
    var rest := source[|path|..];
    var rel := TrimLeft(rest);
    OneSlash(rest);
    Cancel(path, "/" + rel, rest);
    assert path + rest == source;
  }
}
