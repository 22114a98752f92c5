/** COSI buckets (plugins/cosi.py, builders/cosi.py, cosi_owner.py): what DriverCreateBucket
    makes for one bucket name, and DriverDeleteBucket stopped and retried. */
module CosiBucket {
  import opened Wrappers
  import opened Faults
  import opened Lists
  import opened QuotaLookup
  import opened Strings

  // ---------------------------------------------------------------- bucket ids

  datatype BucketId = BucketId(name: string, tenant: string, endpoint: string)

  /** `build_bucket_endpoint_id`. */
  function Encode(id: BucketId): string {
    id.name + "@" + id.tenant + "@" + id.endpoint
  }

  /** The text before and after the first '@'. */
  function Cut(text: string): Option<(string, string)> {
    var n := IndexOf(text, '@');
    if n == |text| then None else Some((text[..n], text[n + 1..]))
  }

  /** `BucketId.parse`: cut at the first two '@'. */
  function Parse(text: string): Option<BucketId> {
    match Cut(text)
    case None => None
    case Some((name, rest)) =>
      match Cut(rest)
      case None => None
      case Some((tenant, endpoint)) => Some(BucketId(name, tenant, endpoint))
  }

  lemma FirstAtAfter(s: string, rest: string)
    ensures IndexOf(s + "@" + rest, '@') == IndexOf(s, '@')
  {
    var t := s + "@" + rest;
    var n := IndexOf(s, '@');
    assert t[n] == '@' && t[..n] == s[..n];
    assert forall m :: n < m <= |t| ==> t[..m][n] == '@';
    assert forall m :: 0 <= m < n ==> t[..n][m] == t[m];
  }

  /** What is read when two parts are joined by an '@': the first part up to its own first '@'. */
  lemma CutAtFirst(s: string, rest: string)
    ensures var c := Cut(s + "@" + rest);
            c.Some? && (if '@' in s then |c.value.0| < |s| else c.value == (s, rest))
  {
    var t := s + "@" + rest;
    FirstAtAfter(s, rest);
    var n := IndexOf(s, '@');
    assert s[..|s|] == s;
    if n == |s| {
      assert t[..n] == s && t[n + 1..] == rest;
    }
  }

  /** An id reads back exactly when neither the name nor the tenant holds an '@'; the endpoint
      may. */
  lemma BucketIdRoundTrip(id: BucketId)
    ensures Parse(Encode(id)) == Some(id) <==> '@' !in id.name && '@' !in id.tenant
  {
    var rest := id.tenant + "@" + id.endpoint;
    assert Encode(id) == id.name + "@" + rest;
    CutAtFirst(id.name, rest);
    CutAtFirst(id.tenant, id.endpoint);
  }

  lemma CutRebuilds(text: string)
    ensures Cut(text).Some? <==> '@' in text
    ensures Cut(text).Some? ==> text == Cut(text).value.0 + "@" + Cut(text).value.1 && '@' !in Cut(text).value.0
  {
    var n := IndexOf(text, '@');
    assert text[..|text|] == text;
    if n < |text| { assert text == text[..n] + [text[n]] + text[n + 1..]; }
  }

  lemma EncodeIs(id: BucketId)
    ensures Encode(id) == id.name + "@" + (id.tenant + "@" + id.endpoint)
  {
  }

  lemma ParsedRebuilds(text: string)
    requires Parse(text).Some?
    ensures Encode(Parse(text).value) == text && '@' !in Parse(text).value.name && '@' !in Parse(text).value.tenant
  {
    CutRebuilds(text);
    CutRebuilds(Cut(text).value.1);
    EncodeIs(Parse(text).value);
  }

  lemma EncodedParses(id: BucketId)
    ensures Parse(Encode(id)).Some?
  {
    var text, i, j := Encode(id), |id.name|, |id.name| + 1 + |id.tenant|;
    assert text[i] == '@' && text[j] == '@';
    CutRebuilds(text);
    IndexOfFirst(text, '@', i);
    var rest := Cut(text).value.1;
    var n := IndexOf(text, '@');
    assert rest[j - n - 1] == text[j];
    CutRebuilds(rest);
  }

  /** What is read is what was written, and exactly the texts that were written are read. */
  lemma ParseRebuilds(text: string)
    ensures Parse(text).Some? ==>
              Encode(Parse(text).value) == text && '@' !in Parse(text).value.name && '@' !in Parse(text).value.tenant
    ensures Parse(text).Some? <==> exists id :: Encode(id) == text
  {
    if Parse(text).Some? { ParsedRebuilds(text); }
    if id :| Encode(id) == text { EncodedParses(id); }
  }

  // ---------------------------------------------------------------- owners and paths

  datatype Owner = Managed | Existing(user: string, context: string)

  function OrEmpty(s: Option<string>): string {
    if s.Some? then s.value else ""
  }

  /** `str.lower` on the letters that matter: no other character has one of them in lower case. */
  function Lower(s: string): string {
    seq(|s|, i requires 0 <= i < |s| => if 'A' <= s[i] <= 'Z' then (s[i] - 'A') + 'a' else s[i])
  }

  /** `resolve_owner`; None is a configuration error. */
  function ResolveOwner(owner: Option<string>, context: Option<string>, bucket: string): Option<Owner> {
    var user := Strip(OrEmpty(owner));
    var where := Lower(Strip(OrEmpty(context)));
    if user == "" then if where != "" then None else Some(Managed)
    else if where !in {"ad", "ldap", "local", "nis"} then None
    else if user == bucket then None
    else Some(Existing(user, where))
  }

  /** The test DriverDeleteBucket makes on the delete context. */
  predicate DeletesUser(owner: Option<string>) {
    Strip(OrEmpty(owner)) == ""
  }

  /** The user is deleted exactly for the parameters for which create makes it, and an existing
      owner never has the name of the bucket. */
  lemma OwnerDecisionAgrees(owner: Option<string>, context: Option<string>, bucket: string)
    requires ResolveOwner(owner, context, bucket).Some?
    ensures DeletesUser(owner) <==> ResolveOwner(owner, context, bucket).value.Managed?
    ensures ResolveOwner(owner, context, bucket).value.Existing? ==>
              ResolveOwner(owner, context, bucket).value.user != bucket
  {
  }

  function StripSlashes(s: string): string {
    if s == "" then "" else if s[0] == '/' then StripSlashes(s[1..])
    else if s[|s| - 1] == '/' then StripSlashes(s[..|s| - 1]) else s
  }

  /** `View.bucket_path`. */
  function BucketPath(root: string, bucket: string): string {
    var r := StripSlashes(Strip(root));
    if r == "" then "/" + bucket else "/" + r + "/" + bucket
  }

  /** A bucket's own path ends with its name. */
  lemma BucketPathEnds(root: string, bucket: string)
    ensures EndsWith(BucketPath(root, bucket), bucket)
  {
    var r := StripSlashes(Strip(root));
    EndsWithJoined("/", bucket);
    EndsWithJoined("/" + r + "/", bucket);
  }

  predicate AllSlash(s: string) {
    forall i :: 0 <= i < |s| ==> s[i] == '/'
  }

  /** No slash at either end. */
  predicate NoOuterSlash(s: string) {
    s != "" ==> s[0] != '/' && s[|s| - 1] != '/'
  }

  lemma {:induction false} StripSlashesPadded(pre: string, s: string, post: string)
    requires AllSlash(pre) && AllSlash(post) && NoOuterSlash(s)
    ensures StripSlashes(pre + s + post) == s
    decreases |pre| + |post|
  {
    var all := pre + s + post;
    if pre != "" {
      assert all[1..] == pre[1..] + s + post;
      StripSlashesPadded(pre[1..], s, post);
    } else if s != "" && post != "" {
      assert all[0] == s[0] && all[..|all| - 1] == pre + s + post[..|post| - 1];
      StripSlashesPadded(pre, s, post[..|post| - 1]);
    } else if post != "" {
      assert all[1..] == pre + s + post[1..];
      StripSlashesPadded(pre, s, post[1..]);
    } else {
      assert all == s;
    }
  }

  /** The path of a bucket, for every root: the root without the space around it and then without the
      slashes around that, between slashes and before the name; a root of nothing else is left out. */
  lemma BucketPathExact(pre: string, front: string, root: string, back: string, post: string, bucket: string)
    requires AllSpace(pre) && AllSpace(post) && AllSlash(front) && AllSlash(back)
    requires NoOuterSlash(root) && NoOuterSpace(front + root + back)
    ensures BucketPath(pre + (front + root + back) + post, bucket)
            == if root == "" then "/" + bucket else "/" + root + "/" + bucket
  {
    StripPadded(pre, front + root + back, post);
    StripSlashesPadded(front, root, back);
  }

  lemma TrimmedPath(root: string, bucket: string)
    requires NoOuterSlash(root) && NoOuterSpace(root)
    ensures BucketPath(root, bucket) == if root == "" then "/" + bucket else "/" + root + "/" + bucket
  {
    assert "" + root + "" == root && "" + ("" + root + "") + "" == root;
    BucketPathExact("", "", root, "", "", bucket);
  }

  lemma SameMiddle(a: string, b: string, tail: string)
    requires "/" + a + "/" + tail == "/" + b + "/" + tail
    ensures a == b
  {
    assert |a| == |b|;
    assert ("/" + a + "/" + tail)[1..|a| + 1] == a && ("/" + b + "/" + tail)[1..|a| + 1] == b;
  }

  /** Two roots give one bucket name the same path exactly if they are the same once trimmed. */
  lemma BucketPathTells(one: string, other: string, bucket: string)
    requires NoOuterSlash(one) && NoOuterSpace(one) && NoOuterSlash(other) && NoOuterSpace(other)
    ensures BucketPath(one, bucket) == BucketPath(other, bucket) <==> one == other
  {
    TrimmedPath(one, bucket);
    TrimmedPath(other, bucket);
    if one != "" && other != "" && BucketPath(one, bucket) == BucketPath(other, bucket) {
      SameMiddle(one, other, bucket);
    }
  }

  /** The same letters, in whatever case. */
  predicate SameLetters(text: string, word: string) {
    |text| == |word|
    && forall i :: 0 <= i < |text| ==>
         text[i] == word[i] || ('a' <= word[i] <= 'z' && text[i] as int - 'A' as int == word[i] as int - 'a' as int)
  }

  lemma LowerWord(text: string, word: string)
    requires forall i :: 0 <= i < |word| ==> 'a' <= word[i] <= 'z'
    ensures Lower(text) == word <==> SameLetters(text, word)
  {
    if Lower(text) == word {
      assert forall i :: 0 <= i < |text| ==> Lower(text)[i] == word[i];
    }
  }

  predicate KnownContext(context: string) {
    || SameLetters(context, "ad") || SameLetters(context, "ldap")
    || SameLetters(context, "local") || SameLetters(context, "nis")
  }

  lemma ContextExactly(context: string)
    ensures Lower(context) in {"ad", "ldap", "local", "nis"} <==> KnownContext(context)
    ensures Lower(context) == "" <==> context == ""
  {
    LowerWord(context, "ad");
    LowerWord(context, "ldap");
    LowerWord(context, "local");
    LowerWord(context, "nis");
  }

  /** Which owners are accepted: none with no context, or one that is not the bucket itself with one of
      the four contexts; space around either does not matter, nor does the case of the context. */
  lemma ResolveOwnerExact(
    pre: string, user: string, post: string, before: string, context: string, after: string, bucket: string)
    requires AllSpace(pre) && AllSpace(post) && AllSpace(before) && AllSpace(after)
    requires NoOuterSpace(user) && NoOuterSpace(context)
    ensures var r := ResolveOwner(Some(pre + user + post), Some(before + context + after), bucket);
            && (r.Some? <==> if user == "" then context == "" else user != bucket && KnownContext(context))
            && (r.Some? ==> if user == "" then r.value.Managed? else r.value.Existing? && r.value.user == user)
    ensures DeletesUser(Some(pre + user + post)) <==> user == ""
    ensures DeletesUser(None) && ResolveOwner(None, None, bucket) == Some(Managed)
  {
    StripPadded(pre, user, post);
    StripPadded(before, context, after);
    ContextExactly(context);
    assert Strip("") == "" && Lower("") == "";
  }

  // ---------------------------------------------------------------- what a delete leaves

  datatype View = View(path: string, owner: Option<string>)

  /** What the backend holds: clone stream and snapshot of the bucket, the user of that name, the
      view and its lifecycle rules; the tenant's folders, and its quotas, by path, with their limit. */
  datatype Store = Store(
    stream: bool, snapshot: bool, user: bool, view: Option<View>, rules: set<string>,
    folders: set<string>, quotas: map<string, Option<nat>>)

  /** What a delete context asks for: whether the user goes, and the folder root_export names. */
  datatype Plan = Plan(dropUser: bool, folder: Option<string>)

  /** The folder a delete removes: the view's, else the one the context names. */
  function Trash(s: Store, plan: Plan): set<string> {
    if s.view.Some? then {s.view.value.path} else if plan.folder.Some? then {plan.folder.value} else {}
  }

  /** The quotas a delete finds: any of the tenant's whose path ends with the bucket name. */
  function Found(s: Store, bucket: string): set<string> {
    Named(s.quotas.Keys, bucket)
  }

  /** The store after an undisturbed delete. With more than one quota found it ends in an error,
      all else being done. */
  function Finish(s: Store, plan: Plan, bucket: string): Store {
    Store(false, false, s.user && !plan.dropUser, None, {}, s.folders - Trash(s, plan),
          if |Found(s, bucket)| <= 1 then s.quotas - Found(s, bucket) else s.quotas)
  }

  /** The store after a delete that stopped with `steps` done; `left` are the rules not reached. */
  function Stopped(s: Store, plan: Plan, steps: nat, left: set<string>): Store {
    Store(s.stream && steps < 1, s.snapshot && steps < 2, s.user && !(plan.dropUser && steps >= 3),
          if steps >= 4 then None else s.view,
          if steps >= 4 then {} else if steps == 3 then s.rules * left else s.rules,
          if steps >= 5 then s.folders - Trash(s, plan) else s.folders,
          s.quotas)
  }

  datatype Attempt = Undisturbed | Stops(steps: nat, left: set<string>)

  function After(s: Store, plan: Plan, bucket: string, a: Attempt): Store {
    match a
    case Undisturbed => Finish(s, plan, bucket)
    case Stops(steps, left) => Stopped(s, plan, steps, left)
  }

  function Retried(s: Store, plan: Plan, bucket: string, attempts: seq<Attempt>): Store {
    if attempts == [] then s
    else After(Retried(s, plan, bucket, attempts[..|attempts| - 1]), plan, bucket, attempts[|attempts| - 1])
  }

  /** With the view gone, a retry takes the folder from the context: it must be the view's, unless
      neither of the two is there. */
  predicate Converges(s: Store, plan: Plan) {
    s.view.Some? ==>
      var path := s.view.value.path;
      || plan.folder == Some(path)
      || (path !in s.folders && (plan.folder.Some? ==> plan.folder.value !in s.folders))
  }

  lemma AttemptKeeps(s: Store, plan: Plan, bucket: string, a: Attempt)
    requires Converges(s, plan)
    ensures Converges(After(s, plan, bucket, a), plan)
    ensures Finish(After(s, plan, bucket, a), plan, bucket) == Finish(s, plan, bucket)
  {
    var s' := After(s, plan, bucket, a);
    assert s'.folders - Trash(s', plan) == s.folders - Trash(s, plan);
    if a.Undisturbed? && |Found(s, bucket)| <= 1 {
      assert Found(s', bucket) == {};
    }
  }

  lemma {:induction false} RetriesKeep(s: Store, plan: Plan, bucket: string, attempts: seq<Attempt>)
    requires Converges(s, plan)
    ensures Converges(Retried(s, plan, bucket, attempts), plan)
    ensures Finish(Retried(s, plan, bucket, attempts), plan, bucket) == Finish(s, plan, bucket)
    decreases |attempts|
  {
    if attempts != [] {
      RetriesKeep(s, plan, bucket, attempts[..|attempts| - 1]);
      AttemptKeeps(Retried(s, plan, bucket, attempts[..|attempts| - 1]), plan, bucket, attempts[|attempts| - 1]);
    }
  }

  lemma RetriedOnce(s: Store, plan: Plan, bucket: string, a: Attempt)
    ensures Retried(s, plan, bucket, [a]) == After(s, plan, bucket, a)
  {
    assert [a][..0] == [];
    assert Retried(s, plan, bucket, [a][..0]) == s;
  }

  /** Stopped between view and folder and then finished, the delete misses the view's folder or
      takes another one: the folders differ from those of one undisturbed delete. */
  lemma DivergingRetry(s: Store, plan: Plan, bucket: string)
    requires !Converges(s, plan)
    ensures Finish(Retried(s, plan, bucket, [Stops(4, {})]), plan, bucket).folders
            != Finish(s, plan, bucket).folders
  {
    var s' := Retried(s, plan, bucket, [Stops(4, {})]);
    RetriedOnce(s, plan, bucket, Stops(4, {}));
    var path := s.view.value.path;
    var once, twice := s.folders - {path}, s.folders - Trash(s', plan);
    if path in s.folders {
      assert path !in once && path in twice;
    } else {
      assert plan.folder.value in once && plan.folder.value !in twice;
    }
  }

  /** Deletes stopped anywhere, any number of times, and then finished end in the store of one
      undisturbed delete, if and only if the context names the view's folder, there is no view,
      or neither folder exists. */
  lemma RetriesConverge(s: Store, plan: Plan, bucket: string)
    ensures (forall attempts: seq<Attempt> ::
               Finish(Retried(s, plan, bucket, attempts), plan, bucket) == Finish(s, plan, bucket))
            <==> Converges(s, plan)
  {
    if Converges(s, plan) {
      forall attempts: seq<Attempt>
        ensures Finish(Retried(s, plan, bucket, attempts), plan, bucket) == Finish(s, plan, bucket)
      {
        RetriesKeep(s, plan, bucket, attempts);
      }
    } else {
      DivergingRetry(s, plan, bucket);
    }
  }

  // ---------------------------------------------------------------- the quota that goes

  /** An undisturbed delete completes, and takes the bucket's own quota and no other, if and only
      if no other quota of the tenant ends with the bucket name. */
  lemma OwnQuotaGoes(s: Store, plan: Plan, bucket: string, own: string)
    requires EndsWith(own, bucket)
    ensures |Found(s, bucket)| <= 1 && Finish(s, plan, bucket).quotas == s.quotas - {own}
            <==> Found(s, bucket) <= {own}
  {
    var found := Found(s, bucket);
    if found <= {own} {
      assert found == {} || found == {own};
      assert s.quotas - found == s.quotas - {own};
    } else if |found| <= 1 {
      var q :| q in found && q != own;
      assert q in s.quotas - {own} && q !in s.quotas - found;
    }
  }

  /** Two quotas that end with the bucket name: the delete fails, however often it is retried. */
  lemma {:induction false} TwoQuotasBlock(
    s: Store, plan: Plan, bucket: string, own: string, other: string, attempts: seq<Attempt>)
    requires own != other && {own, other} <= Found(s, bucket)
    ensures var s' := Retried(s, plan, bucket, attempts);
            s'.quotas == s.quotas && |Found(s', bucket)| > 1
    decreases |attempts|
  {
    TwoAreTooMany(Found(s, bucket), own, other);
    if attempts != [] {
      TwoQuotasBlock(s, plan, bucket, own, other, attempts[..|attempts| - 1]);
    }
  }

  /** A bucket without a quota, and one other quota that ends with its name: the other one goes. */
  lemma ForeignQuotaGoes(s: Store, plan: Plan, bucket: string, own: string, other: string)
    requires own !in s.quotas && other in s.quotas && Found(s, bucket) == {other}
    ensures own != other && Finish(s, plan, bucket).quotas == s.quotas - {other}
  {
    assert |{other}| == 1;
  }

  /** Such names are easy to come by: bucket b beside bucket ab. */
  lemma SuffixExample(root: string)
    ensures EndsWith(BucketPath(root, "b"), "b") && EndsWith(BucketPath(root, "ab"), "b")
    ensures BucketPath(root, "b") != BucketPath(root, "ab")
  {
    BucketPathEnds(root, "b");
    BucketPathEnds(root, "ab");
    var path := BucketPath(root, "ab");
    assert path[|path| - 2..] == "ab";
    assert path[|path| - 1..] == "ab"[1..] == "b";
    assert |path| == |BucketPath(root, "b")| + 1;
  }

  // ---------------------------------------------------------------- the backend

  /** `capacity` 0: no size was requested. */
  datatype Params = Params(
    root: Option<string>, owner: Option<string>, context: Option<string>, rules: seq<string>, capacity: nat)

  function PlanOf(bucket: string, p: Params): Plan {
    Plan(DeletesUser(p.owner), if p.root.Some? then Some(BucketPath(p.root.value, bucket)) else None)
  }

  /** The name of the owner in the view. */
  function OwnerOf(p: Params, external: Option<string>, bucket: string): Option<string> {
    if DeletesUser(p.owner) then Some(bucket) else external
  }

  /** From the view on: the rules one by one, then at most the view's own quota; one of another size is
      a conflict. */
  ghost predicate Provisioned(
    s: Store, t: Store, path: string, p: Params, goes: Schedule, ruleGoes: Schedule, ok: bool)
  {
    var ruled := forall i :: 0 <= i < |p.rules| ==> ruleGoes(i);
    && s.rules <= t.rules <= s.rules + Elements(p.rules)
    && (ruled ==> t.rules == s.rules + Elements(p.rules))
    && t.quotas == (if ruled && p.capacity > 0 && goes(2) && path !in s.quotas
                    then s.quotas[path := Some(p.capacity)] else s.quotas)
    && (ok <==> ruled && (p.capacity > 0 ==>
                  goes(2) && (path in s.quotas ==> s.quotas[path].None? || s.quotas[path].value == p.capacity)))
  }

  /** How a step of a clone ends: with the driver's own Abort, or with any other error. */
  datatype Step = Goes | Aborts | Raises

  datatype CloneOutcome = Cloned | Aborted | Raised

  /** Snapshot of the source, stream into the new folder, view on it: what is there after them. A view
      is made once. */
  predicate CloneGoes(s: Store, t: Store, made: View, step: nat -> Step) {
    && (t.snapshot <==> s.snapshot || step(1).Goes?)
    && (t.stream <==> s.stream || (step(1).Goes? && step(2).Goes?))
    && t.folders == s.folders + (if step(1).Goes? && step(2).Goes? then {made.path} else {})
    && t.view == (if s.view.None? && step(1).Goes? && step(2).Goes? && step(3).Goes? then Some(made) else s.view)
  }

  /** The first step that does not go through decides; then a view of another owner or at another path
      is a conflict. */
  function CloneEnds(s: Store, made: View, step: nat -> Step): CloneOutcome {
    var failing := if !step(1).Goes? then step(1) else if !step(2).Goes? then step(2) else step(3);
    if failing.Raises? then Raised
    else if failing.Aborts? then Aborted
    else if s.view.Some? && (s.view.value.path != made.path
                             || (s.view.value.owner.Some? && s.view.value.owner != made.owner)) then Aborted
    else Cloned
  }

  /** The managed owner of the view exists. */
  predicate Owned(s: Store, bucket: string) {
    s.view.Some? && s.view.value.owner == Some(bucket) ==> s.user
  }

  class Backend {
    const bucket: string
    var stream: bool
    var snapshot: bool
    var user: bool
    var view: Option<View>
    var rules: set<string>
    var folders: set<string>
    var quotas: map<string, Option<nat>>

    constructor (bucket: string, s: Store)
      requires s.view.None? ==> s.rules == {}
      ensures Valid() && State() == s && this.bucket == bucket
    {
      this.bucket := bucket;
      stream, snapshot, user, view, rules, folders, quotas :=
        s.stream, s.snapshot, s.user, s.view, s.rules, s.folders, s.quotas;
    }

    function State(): Store
      reads this
    {
      Store(stream, snapshot, user, view, rules, folders, quotas)
    }

    /** No lifecycle rule outlives its view. */
    predicate Valid()
      reads this
    {
      view.None? ==> rules == {}
    }

    /** The owner and the view of an empty bucket. `external` is what looking up an external owner
        answers. */
    method EnsureView(p: Params, external: Option<string>, goes: Schedule) returns (ok: bool)
      requires Valid()
      modifies this`user, this`view, this`folders
      ensures Valid()
      ensures var resolved := p.root.Some? && ResolveOwner(p.owner, p.context, bucket).Some? && goes(0);
              var named := resolved && (DeletesUser(p.owner) || external.Some?) && goes(1);
              // the user of the bucket's name is made only for a managed owner
              && (user <==> old(user) || (resolved && DeletesUser(p.owner)))
              // a view is made once, at the bucket's path, with its folder
              && view == (if old(view).None? && named
                          then Some(View(BucketPath(p.root.value, bucket), OwnerOf(p, external, bucket)))
                          else old(view))
              && folders == old(folders) + (if old(view).None? && named then {BucketPath(p.root.value, bucket)} else {})
              // a view with another owner is a conflict
              && (ok <==> named && (view.value.owner.None? || view.value.owner == OwnerOf(p, external, bucket)))
    {
      if p.root.None? { return false; }
      var owner := ResolveOwner(p.owner, p.context, bucket);
      if owner.None? { return false; }
      OwnerDecisionAgrees(p.owner, p.context, bucket);
      if !goes(0) { return false; }
      var name := Some(bucket);
      if owner.value.Managed? {
        user := true;
      } else {
        name := external;
      }
      if name.None? { return false; }              // no such external owner
      if !goes(1) { return false; }
      if view.None? {
        var path := BucketPath(p.root.value, bucket);
        view, folders := Some(View(path, name)), folders + {path};
      }
      return view.value.owner.None? || view.value.owner == name;
    }

    method EnsureRules(names: seq<string>, goes: Schedule) returns (ok: bool)
      modifies this`rules
      ensures old(rules) <= rules <= old(rules) + Elements(names)
      ensures ok ==> rules == old(rules) + Elements(names)
      ensures ok <==> forall i :: 0 <= i < |names| ==> goes(i)
    {
      for i := 0 to |names|
        invariant forall k :: 0 <= k < i ==> goes(k)
        invariant rules == old(rules) + Elements(names[..i])
      {
        if !goes(i) { return false; }
        rules := rules + {names[i]};
        assert names[..i + 1] == names[..i] + [names[i]];
      }
      assert names[..|names|] == names;
      return true;
    }

    /** DriverCreateBucket for an empty bucket: owner, view with its folder, rules, quota. */
    method DriverCreateBucket(p: Params, external: Option<string>, goes: Schedule, ruleGoes: Schedule)
      returns (ok: bool)
      requires Valid()
      modifies this
      ensures Valid()
      ensures var resolved := p.root.Some? && ResolveOwner(p.owner, p.context, bucket).Some? && goes(0);
              var named := resolved && (DeletesUser(p.owner) || external.Some?) && goes(1);
              && (user <==> old(user) || (resolved && DeletesUser(p.owner)))
              && view == (if old(view).None? && named
                          then Some(View(BucketPath(p.root.value, bucket), OwnerOf(p, external, bucket)))
                          else old(view))
              && folders == old(folders) + (if old(view).None? && named then {BucketPath(p.root.value, bucket)} else {})
              && var accepted := named && (view.value.owner.None? || view.value.owner == OwnerOf(p, external, bucket));
                 && (!accepted ==> !ok && rules == old(rules) && quotas == old(quotas))
                 && (accepted ==> Provisioned(old(State()), State(), view.value.path, p, goes, ruleGoes, ok))
      ensures stream == old(stream) && snapshot == old(snapshot)
    {
      ok := EnsureView(p, external, goes);
      if !ok { return false; }
      ok := PostProvision(p, goes, ruleGoes);
    }

    /** `apply_bucket_post_provision`: the rules, then the quota. */
    method PostProvision(p: Params, goes: Schedule, ruleGoes: Schedule) returns (ok: bool)
      requires Valid() && view.Some?
      modifies this`rules, this`quotas
      ensures Valid()
      ensures var ruled, path := forall i :: 0 <= i < |p.rules| ==> ruleGoes(i), view.value.path;
              && old(rules) <= rules <= old(rules) + Elements(p.rules)
              && (ruled ==> rules == old(rules) + Elements(p.rules))
              && quotas == (if ruled && p.capacity > 0 && goes(2) && path !in old(quotas)
                            then old(quotas)[path := Some(p.capacity)] else old(quotas))
              && (ok <==> ruled && (p.capacity == 0 || (goes(2) && (path !in old(quotas) || old(quotas)[path].None?
                                                                    || old(quotas)[path].value == p.capacity))))
    {
      ok := EnsureRules(p.rules, ruleGoes);
      if !ok { return false; }
      if p.capacity == 0 { return true; }
      if !goes(2) { return false; }
      var path := view.value.path;
      if path in quotas {
        return quotas[path].None? || quotas[path].value == p.capacity;
      }
      quotas := quotas[path := Some(p.capacity)];
      return true;
    }

    /** The owner, snapshot, stream and view of a bucket cloned from another one. An error other than
        an Abort, once the owner is there, takes the managed user away again. */
    method EnsureClone(p: Params, external: Option<string>, source: bool, sameTenant: bool, step: nat -> Step)
      returns (outcome: CloneOutcome)
      requires Valid()
      modifies this`user, this`snapshot, this`stream, this`view, this`folders
      ensures Valid()
      ensures var entered := source && sameTenant && p.root.Some? && ResolveOwner(p.owner, p.context, bucket).Some?
                             && step(0).Goes? && (DeletesUser(p.owner) || external.Some?);
              && (!entered ==> outcome.Aborted? && State() == old(State()))
              && (entered ==>
                    var made := View(BucketPath(p.root.value, bucket), OwnerOf(p, external, bucket));
                    && CloneGoes(old(State()), State(), made, step)
                    && outcome == CloneEnds(old(State()), made, step)
                    // the managed user: made by an attempt that gets that far, gone when it raises
                    && (user <==> if DeletesUser(p.owner) then !outcome.Raised? else old(user)))
      // so a view loses its managed owner exactly when an attempt raises over it
      ensures Owned(old(State()), bucket) && external != Some(bucket) ==>
                (Owned(State(), bucket) <==>
                   !(outcome.Raised? && DeletesUser(p.owner) && view.Some? && view.value.owner == Some(bucket)))
    {
      if p.root.None? { return Aborted; }
      var owner := ResolveOwner(p.owner, p.context, bucket);
      if owner.None? || !source || !sameTenant { return Aborted; }
      OwnerDecisionAgrees(p.owner, p.context, bucket);
      if !step(0).Goes? { return Aborted; }        // nothing to undo yet
      var name := if owner.value.Managed? then Some(bucket) else external;
      if name.None? { return Aborted; }
      if owner.value.Managed? {
        user := true;
      }
      var path := BucketPath(p.root.value, bucket);
      outcome := CloneView(path, name, step);
      if outcome.Raised? && owner.value.Managed? {
        user := false;
      }
    }

    /** DriverCreateBucket for a cloned bucket. */
    method DriverCloneBucket(
      p: Params, external: Option<string>, source: bool, sameTenant: bool, step: nat -> Step,
      goes: Schedule, ruleGoes: Schedule)
      returns (ok: bool)
      requires Valid()
      modifies this
      ensures Valid()
      ensures var entered := source && sameTenant && p.root.Some? && ResolveOwner(p.owner, p.context, bucket).Some?
                             && step(0).Goes? && (DeletesUser(p.owner) || external.Some?);
              && (!entered ==> !ok && State() == old(State()))
              && (entered ==>
                    var made := View(BucketPath(p.root.value, bucket), OwnerOf(p, external, bucket));
                    var outcome := CloneEnds(old(State()), made, step);
                    && CloneGoes(old(State()), State(), made, step)
                    && (user <==> if DeletesUser(p.owner) then !outcome.Raised? else old(user))
                    && (!outcome.Cloned? ==> !ok && rules == old(rules) && quotas == old(quotas))
                    && (outcome.Cloned? ==> Provisioned(old(State()), State(), made.path, p, goes, ruleGoes, ok)))
    {
      var outcome := EnsureClone(p, external, source, sameTenant, step);
      if !outcome.Cloned? { return false; }
      ok := PostProvision(p, goes, ruleGoes);
    }

    /** The guarded part: snapshot of the source, stream into the new folder, view on it. */
    method CloneView(path: string, name: Option<string>, step: nat -> Step) returns (outcome: CloneOutcome)
      requires Valid() && name.Some?
      modifies this`snapshot, this`stream, this`view, this`folders
      ensures Valid()
      ensures CloneGoes(old(State()), State(), View(path, name), step)
      ensures outcome == CloneEnds(old(State()), View(path, name), step)
      ensures outcome.Raised? <==>
              || step(1).Raises?
              || (step(1).Goes? && (step(2).Raises? || (step(2).Goes? && step(3).Raises?)))
      ensures outcome.Cloned? <==>
              && step(1).Goes? && step(2).Goes? && step(3).Goes? && view.Some? && view.value.path == path
              && (view.value.owner.None? || view.value.owner == name)
      ensures snapshot == (old(snapshot) || step(1).Goes?)
      ensures stream == (old(stream) || (step(1).Goes? && step(2).Goes?))
      ensures old(view).None? ==>
                view == if step(1).Goes? && step(2).Goes? && step(3).Goes? then Some(View(path, name)) else None
    {
      if !step(1).Goes? { return if step(1).Aborts? then Aborted else Raised; }
      snapshot := true;
      if !step(2).Goes? { return if step(2).Aborts? then Aborted else Raised; }
      stream, folders := true, folders + {path};
      if !step(3).Goes? { return if step(3).Aborts? then Aborted else Raised; }
      if view.None? {
        view := Some(View(path, name));
      }
      if view.value.owner.Some? && view.value.owner != name { return Aborted; }
      if view.value.path != path { return Aborted; }
      return Cloned;
    }

    /** `s3lifecyclerules.delete_many`: the listed rules, one at a time. */
    method DeleteRules(goes: Schedule) returns (ok: bool)
      modifies this`rules
      ensures ok ==> rules == {}
      ensures rules <= old(rules)
      ensures ok <==> forall k :: 0 <= k < |old(rules)| ==> goes(k)
    {
      var listed, k := rules, 0;
      while listed != {}
        invariant listed == rules <= old(rules) && k + |listed| == |old(rules)|
        invariant forall i :: 0 <= i < k ==> goes(i)
        decreases listed
      {
        if !goes(k) { return false; }
        var r :| r in listed;
        rules, listed, k := rules - {r}, listed - {r}, k + 1;
      }
      return true;
    }

    /** The first deletions: clone stream, clone snapshot, and the managed user. */
    method DeleteClone(dropUser: bool, goes: Schedule) returns (ok: bool, steps: nat)
      modifies this`stream, this`snapshot, this`user
      ensures steps == if !goes(0) then 0 else if !goes(1) then 1 else if dropUser && !goes(2) then 2 else 3
      ensures ok <==> steps == 3
      ensures stream == (old(stream) && steps < 1)
      ensures snapshot == (old(snapshot) && steps < 2)
      ensures user == (old(user) && !(dropUser && steps >= 3))
    {
      if !goes(0) { return false, 0; }
      stream := false;
      if !goes(1) { return false, 1; }
      snapshot := false;
      if dropUser {
        if !goes(2) { return false, 2; }
        user := false;
      }
      return true, 3;
    }

    /** `quotas.delete(name=...)`: nothing found is fine, more than one is an error. */
    method DeleteQuota() returns (ok: bool)
      modifies this`quotas
      ensures ok <==> |Found(old(State()), bucket)| <= 1
      ensures quotas == if ok then old(quotas) - Found(old(State()), bucket) else old(quotas)
    {
      var found := Named(quotas.Keys, bucket);
      if found == {} { return true; }
      if |found| > 1 { return false; }
      var q :| q in found;
      OnlyOne(found, q);
      quotas := quotas - {q};
      return true;
    }

    /** The view, after its rules. */
    method DeleteView(goes: Schedule, ruleGoes: Schedule) returns (ok: bool)
      requires Valid()
      modifies this`view, this`rules
      ensures Valid()
      ensures ok <==> old(view).Some? ==> goes(3) && forall k :: 0 <= k < |old(rules)| ==> ruleGoes(k)
      ensures ok ==> view.None? && rules == {}
      ensures !ok ==> view == old(view) && rules <= old(rules)
    {
      if view.None? { return true; }
      ok := DeleteRules(ruleGoes);
      if !ok || !goes(3) { return false; }
      view := None;
    }

    /** The deletions in their order. */
    method DeleteAll(plan: Plan, goes: Schedule, ruleGoes: Schedule) returns (ok: bool, attempt: Attempt)
      requires Valid()
      modifies this
      ensures Valid() && State() == After(old(State()), plan, bucket, attempt)
      ensures ok <==> attempt.Undisturbed? && |Found(old(State()), bucket)| <= 1
      // where it stops: at the first step that does not go through
      ensures var stops :=
                if !goes(0) then 0 else if !goes(1) then 1 else if plan.dropUser && !goes(2) then 2
                else if old(view).Some? && !(goes(3) && forall k :: 0 <= k < |old(rules)| ==> ruleGoes(k)) then 3
                else if Trash(old(State()), plan) != {} && !goes(4) then 4 else if !goes(5) then 5 else 6;
              if stops == 6 then attempt.Undisturbed? else attempt.Stops? && attempt.steps == stops
    {
      var steps;
      ok, steps := DeleteClone(plan.dropUser, goes);
      if !ok { return false, Stops(steps, rules); }
      var trash := if view.Some? then Some(view.value.path) else plan.folder;
      ok := DeleteView(goes, ruleGoes);
      if !ok {
        assert old(rules) * rules == rules;
        return false, Stops(3, rules);
      }
      if trash.Some? {
        if !goes(4) { return false, Stops(4, {}); }
        folders := folders - {trash.value};
      }
      if !goes(5) { return false, Stops(5, {}); }
      ok := DeleteQuota();
      attempt := Undisturbed;
    }

    method DriverDeleteBucket(p: Params, goes: Schedule, ruleGoes: Schedule) returns (ok: bool, attempt: Attempt)
      requires Valid()
      modifies this
      ensures Valid() && State() == After(old(State()), PlanOf(bucket, p), bucket, attempt)
      ensures ok <==> attempt.Undisturbed? && |Found(old(State()), bucket)| <= 1
      // where it stops: at the first step that does not go through
      ensures var stops :=
                if !goes(0) then 0 else if !goes(1) then 1 else if DeletesUser(p.owner) && !goes(2) then 2
                else if old(view).Some? && !(goes(3) && forall k :: 0 <= k < |old(rules)| ==> ruleGoes(k)) then 3
                else if Trash(old(State()), PlanOf(bucket, p)) != {} && !goes(4) then 4 else if !goes(5) then 5 else 6;
              if stops == 6 then attempt.Undisturbed? else attempt.Stops? && attempt.steps == stops
    {
      ok, attempt := DeleteAll(PlanOf(bucket, p), goes, ruleGoes);
    }

    /** Stopped after any step, any number of times, and then undisturbed: what was done is a list
        of attempts, and under the exact condition the store is that of one undisturbed delete. */
    method DeleteUntilDone(p: Params, stops: seq<(Schedule, Schedule)>, goes: Schedule, ruleGoes: Schedule)
      returns (ok: bool, ghost attempts: seq<Attempt>)
      requires Valid()
      requires forall k :: goes(k) && ruleGoes(k)
      modifies this
      ensures Valid()
      ensures var plan := PlanOf(bucket, p);
              State() == Finish(Retried(old(State()), plan, bucket, attempts), plan, bucket)
      ensures var plan := PlanOf(bucket, p);
              Converges(old(State()), plan) ==> State() == Finish(old(State()), plan, bucket)
      ensures ok <==> |Found(old(State()), bucket)| <= 1
    {
      ghost var plan := PlanOf(bucket, p);
      attempts := [];
      for i := 0 to |stops|
        invariant Valid() && State() == Retried(old(State()), plan, bucket, attempts)
        invariant |Found(old(State()), bucket)| <= 1 <==> |Found(State(), bucket)| <= 1
      {
        ghost var before := State();
        var _, attempt := DriverDeleteBucket(p, stops[i].0, stops[i].1);
        FoundStays(before, plan, bucket, attempt);
        assert (attempts + [attempt])[..|attempts|] == attempts;
        attempts := attempts + [attempt];
      }
      if Converges(old(State()), plan) {
        RetriesKeep(old(State()), plan, bucket, attempts);
      }
      var attempt;
      ok, attempt := DriverDeleteBucket(p, goes, ruleGoes);
    }

    /** A delete after a create with the same parameters, on the store the create found. */
    method DeleteMade(p: Params, ghost was: Store, goes: Schedule, ruleGoes: Schedule) returns (deleted: bool)
      requires Valid() && p.root.Some? && forall k :: goes(k) && ruleGoes(k)
      requires MadeFrom(was, State(), BucketPath(p.root.value, bucket))
      requires user == was.user || DeletesUser(p.owner)
      modifies this
      ensures Valid() && view.None? && rules == {} && !stream && !snapshot
      ensures folders == was.folders - {BucketPath(p.root.value, bucket)}
      ensures user == (was.user && !DeletesUser(p.owner))
      ensures deleted && quotas == was.quotas - {BucketPath(p.root.value, bucket)}
              <==> Found(was, bucket) <= {BucketPath(p.root.value, bucket)}
    {
      ghost var own := BucketPath(p.root.value, bucket);
      BucketPathEnds(p.root.value, bucket);
      MadeFinds(was, State(), own, bucket);
      OwnQuotaGoes(State(), PlanOf(bucket, p), bucket, own);
      var attempt;
      deleted, attempt := DriverDeleteBucket(p, goes, ruleGoes);
    }

    /** Create, stopped anywhere, and delete with the same parameters: nothing of the bucket is
        left, an existing user of its name survives exactly for an external owner, and the quotas
        lose the bucket's own and no other exactly when no other ends with its name. */
    method CreateThenDelete(
      p: Params, external: Option<string>, createGoes: Schedule, createRules: Schedule,
      goes: Schedule, ruleGoes: Schedule)
      returns (deleted: bool)
      requires Valid() && view.None? && p.root.Some? && forall k :: goes(k) && ruleGoes(k)
      modifies this
      ensures Valid() && view.None? && rules == {} && !stream && !snapshot
      ensures folders == old(folders) - {BucketPath(p.root.value, bucket)}
      ensures user == (old(user) && !DeletesUser(p.owner))
      ensures deleted && quotas == old(quotas) - {BucketPath(p.root.value, bucket)}
              <==> Found(old(State()), bucket) <= {BucketPath(p.root.value, bucket)}
    {
      ghost var own := BucketPath(p.root.value, bucket);
      var _ := DriverCreateBucket(p, external, createGoes, createRules);
      assert MadeFrom(old(State()), State(), own);
      deleted := DeleteMade(p, old(State()), goes, ruleGoes);
    }

    /** The same for a cloned bucket: also its stream, its snapshot and the folder they filled. */
    method CloneThenDelete(
      p: Params, external: Option<string>, source: bool, sameTenant: bool, step: nat -> Step,
      createGoes: Schedule, createRules: Schedule, goes: Schedule, ruleGoes: Schedule)
      returns (deleted: bool)
      requires Valid() && view.None? && p.root.Some? && forall k :: goes(k) && ruleGoes(k)
      modifies this
      ensures Valid() && view.None? && rules == {} && !stream && !snapshot
      ensures folders == old(folders) - {BucketPath(p.root.value, bucket)}
      ensures user == (old(user) && !DeletesUser(p.owner))
      ensures deleted && quotas == old(quotas) - {BucketPath(p.root.value, bucket)}
              <==> Found(old(State()), bucket) <= {BucketPath(p.root.value, bucket)}
    {
      ghost var own := BucketPath(p.root.value, bucket);
      var _ := DriverCloneBucket(p, external, source, sameTenant, step, createGoes, createRules);
      assert MadeFrom(old(State()), State(), own);
      deleted := DeleteMade(p, old(State()), goes, ruleGoes);
    }
  }

  /** The store of a create: the view, if any, is at the own path, and folders and quotas differ only
      there. */
  predicate MadeFrom(was: Store, s: Store, own: string) {
    && (s.view.Some? ==> s.view.value.path == own)
    && s.folders - {own} == was.folders - {own} && s.quotas - {own} == was.quotas - {own}
  }

  lemma MadeFinds(was: Store, s: Store, own: string, bucket: string)
    requires s.quotas - {own} == was.quotas - {own}
    ensures Found(s, bucket) <= {own} <==> Found(was, bucket) <= {own}
  {
    assert forall q :: q != own ==> (q in s.quotas <==> q in s.quotas - {own});
    assert forall q :: q != own ==> (q in was.quotas <==> q in was.quotas - {own});
    assert forall q :: q in Found(s, bucket) && q != own <==> q in Found(was, bucket) && q != own;
  }

  /** An attempt neither makes nor ends an ambiguity. */
  lemma FoundStays(s: Store, plan: Plan, bucket: string, a: Attempt)
    ensures |Found(s, bucket)| <= 1 <==> |Found(After(s, plan, bucket, a), bucket)| <= 1
  {
    var s' := After(s, plan, bucket, a);
    if a.Undisturbed? && |Found(s, bucket)| <= 1 {
      assert Found(s', bucket) == {};
    }
  }

  /** The failing family as a run of the driver: whatever the context, unless it converges, a
      delete stopped between view and folder and then retried to completion ends with other
      folders than one undisturbed delete. */
  method DivergingDelete(bucket: string, s: Store, p: Params) returns (b: Backend)
    requires (s.view.None? ==> s.rules == {}) && !Converges(s, PlanOf(bucket, p))
    ensures fresh(b) && b.folders != Finish(s, PlanOf(bucket, p), bucket).folders
  {
    b := new Backend(bucket, s);
    var ok, attempt := b.DriverDeleteBucket(p, k => k != 4, k => true);
    ghost var plan := PlanOf(bucket, p);
    DivergingRetry(s, plan, bucket);
    RetriedOnce(s, plan, bucket, Stops(4, {}));
    assert b.State() == Stopped(s, plan, 4, {});
    ok, attempt := b.DriverDeleteBucket(p, k => true, k => true);
  }

  /** A clone that has been made, and is asked for again while the backend fails: its view is left
      without the user that owns it, until a later attempt succeeds. */
  method RaisingCloneTakesOwner(bucket: string, s: Store, p: Params, at: nat)
    returns (b: Backend, outcome: CloneOutcome)
    requires s.view.Some? && s.view.value.owner == Some(bucket) && s.user
    requires p.root.Some? && DeletesUser(p.owner) && ResolveOwner(p.owner, p.context, bucket).Some? && 1 <= at <= 3
    ensures fresh(b) && outcome.Raised? && b.view == s.view && !Owned(b.State(), bucket)
  {
    b := new Backend(bucket, s);
    outcome := b.EnsureClone(p, None, true, true, k => if k == at then Raises else Goes);
  }

  /** The parameters name a root, and an owner that is there. */
  predicate Accepts(p: Params, external: Option<string>, bucket: string) {
    p.root.Some? && ResolveOwner(p.owner, p.context, bucket).Some? && (DeletesUser(p.owner) || external.Some?)
  }

  /** What a new bucket adds to the store. */
  function WithBucket(s: Store, bucket: string, p: Params, external: Option<string>, path: string): Store {
    s.(user := s.user || DeletesUser(p.owner),
       view := Some(View(path, OwnerOf(p, external, bucket))),
       rules := Elements(p.rules),
       folders := s.folders + {path},
       quotas := if p.capacity > 0 && path !in s.quotas then s.quotas[path := Some(p.capacity)] else s.quotas)
  }

  predicate SizeFits(s: Store, path: string, capacity: nat) {
    capacity > 0 && path in s.quotas && s.quotas[path].Some? ==> s.quotas[path].value == capacity
  }

  /** Undisturbed, a new bucket is made with all its parts unless a quota of another size is in its
      way, and made again nothing changes. */
  method CreateTwice(bucket: string, s: Store, p: Params, external: Option<string>)
    returns (b: Backend, first: bool, again: bool)
    requires s.view.None? && s.rules == {} && Accepts(p, external, bucket)
    ensures fresh(b)
    ensures var path := BucketPath(p.root.value, bucket);
            && (first <==> SizeFits(s, path, p.capacity)) && again == first
            && b.State() == WithBucket(s, bucket, p, external, path)
  {
    b := new Backend(bucket, s);
    first := b.DriverCreateBucket(p, external, k => true, k => true);
    ghost var once := b.State();
    assert once == WithBucket(s, bucket, p, external, BucketPath(p.root.value, bucket));
    again := b.DriverCreateBucket(p, external, k => true, k => true);
    assert once.rules + Elements(p.rules) == once.rules;
  }

  /** The same for a cloned bucket, with its snapshot and stream. */
  method CloneTwice(bucket: string, s: Store, p: Params, external: Option<string>)
    returns (b: Backend, first: bool, again: bool)
    requires s.view.None? && s.rules == {} && Accepts(p, external, bucket)
    ensures fresh(b)
    ensures var path := BucketPath(p.root.value, bucket);
            && (first <==> SizeFits(s, path, p.capacity)) && again == first
            && b.State() == WithBucket(s, bucket, p, external, path).(snapshot := true, stream := true)
  {
    b := new Backend(bucket, s);
    first := b.DriverCloneBucket(p, external, true, true, k => Goes, k => true, k => true);
    ghost var once := b.State();
    ghost var path := BucketPath(p.root.value, bucket);
    assert once == WithBucket(s, bucket, p, external, path).(snapshot := true, stream := true);
    again := b.DriverCloneBucket(p, external, true, true, k => Goes, k => true, k => true);
    assert once.rules + Elements(p.rules) == once.rules;
    assert once.folders + {BucketPath(p.root.value, bucket)} == once.folders;
  }

  /** A bucket that exists with another owner is a conflict for both kinds of create, and nothing of it
      changes. */
  method OtherOwnerConflicts(bucket: string, s: Store, p: Params, external: Option<string>, clone: bool)
    returns (b: Backend, ok: bool)
    requires s.view.Some? && s.view.value.owner.Some? && Accepts(p, external, bucket)
    requires s.view.value.owner != OwnerOf(p, external, bucket)
    ensures fresh(b) && !ok && b.view == s.view && b.rules == s.rules && b.quotas == s.quotas
  {
    b := new Backend(bucket, s);
    if clone {
      ok := b.DriverCloneBucket(p, external, true, true, k => Goes, k => true, k => true);
    } else {
      ok := b.DriverCreateBucket(p, external, k => true, k => true);
    }
  }

  /** The order of a delete, wherever it stops: while the stream is left nothing else has gone, then the
      snapshot, the user, the view with its rules, the folder, and last the quota. */
  lemma DeleteOrder(s: Store, plan: Plan, bucket: string, a: Attempt)
    ensures var t := After(s, plan, bucket, a);
            && (t.stream ==> t == s)
            && (t.snapshot ==> t == s.(stream := t.stream))
            && (t.user && plan.dropUser ==> t == s.(stream := t.stream, snapshot := t.snapshot))
            && (t.view.Some? ==>
                  t.view == s.view && t.folders == s.folders && t.quotas == s.quotas && t.rules <= s.rules)
            && (Trash(s, plan) * t.folders != {} ==> t.folders == s.folders && t.quotas == s.quotas)
            && (s.view.Some? && t.rules != {} ==> t.view == s.view)
  {
  }
}
