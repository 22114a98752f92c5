/** `resource_locked` of filesystem_utils.py: a shared table of held resources, entered and left
    through the exit stacks of concurrently running RPCs. */
module LockTable {
  import opened Wrappers

  function DefaultMessage(id: string): string {
    "Resource " + id + " is currently locked"
  }

  // ---------------------------------------------------------------- the table

  /** Held resources, each with the message shown to those refused. */
  type Table = map<string, string>

  datatype Attempt = Entered | Refused(message: string)

  /** Entering the context manager. */
  function TryEnter(table: Table, id: string, message: Option<string>): (Attempt, Table) {
    if id in table then (Refused(table[id]), table)
    else
      var shown := if message.Some? && message.value != "" then message.value else DefaultMessage(id);
      (Entered, table[id := shown])
  }

  /** The shared `_locks` table; each method runs under the global lock. */
  class ResourceLocks {
    var locks: Table

    constructor ()
      ensures locks == map[]
    {
      locks := map[];
    }

    method Enter(id: string, message: Option<string>) returns (r: Attempt)
      modifies this
      ensures (r, locks) == TryEnter(old(locks), id, message)
      ensures r.Entered? <==> id !in old(locks)
      ensures r.Refused? ==> locks == old(locks)
    {
      if id in locks {
        return Refused(locks[id]);
      }
      var shown := DefaultMessage(id);
      if message.Some? && message.value != "" {
        shown := message.value;
      }
      locks := locks[id := shown];
      return Entered;
    }

    /** `_locks.pop(resource_id, None)`. */
    method Leave(id: string)
      modifies this
      ensures locks == old(locks) - {id}
    {
      locks := locks - {id};
    }
  }

  // ---------------------------------------------------------------- calls with exit stacks

  /** The table, and the exit stack of every RPC: the resources it entered, in order. */
  datatype State = State(table: Table, stacks: map<nat, seq<string>>)

  datatype Action =
    | Begin(call: nat)
    | Enter(call: nat, id: string, message: Option<string>)   // a refused attempt raises; the call then only leaves
    | Leave(call: nat)                                        // the exit stack unwinds by one context
    | End(call: nat)                                          // an RPC whose exit stack is unwound ends

  function Apply(s: State, a: Action): State {
    match a
    case Begin(c) => if c in s.stacks then s else s.(stacks := s.stacks[c := []])
    case Enter(c, id, message) =>
      if c !in s.stacks then s
      else
        var (attempt, table) := TryEnter(s.table, id, message);
        State(table, if attempt.Entered? then s.stacks[c := s.stacks[c] + [id]] else s.stacks)
    case Leave(c) =>
      if c !in s.stacks || s.stacks[c] == [] then s
      else
        var top := |s.stacks[c]| - 1;
        State(s.table - {s.stacks[c][top]}, s.stacks[c := s.stacks[c][..top]])
    case End(c) => if c in s.stacks && s.stacks[c] == [] then s.(stacks := s.stacks - {c}) else s
  }

  function Run(actions: seq<Action>): State {
    if actions == [] then State(map[], map[])
    else Apply(Run(actions[..|actions| - 1]), actions[|actions| - 1])
  }

  /** Calls that share one table, step by step as the actions say. */
  method Interleave(actions: seq<Action>) returns (shared: ResourceLocks, stacks: map<nat, seq<string>>)
    ensures fresh(shared) && State(shared.locks, stacks) == Run(actions)
  {
    shared := new ResourceLocks();
    stacks := map[];
    for i := 0 to |actions|
      invariant fresh(shared) && State(shared.locks, stacks) == Run(actions[..i])
    {
      assert actions[..i + 1][..i] == actions[..i];
      match actions[i] {
        case Begin(c) => if c !in stacks { stacks := stacks[c := []]; }
        case Enter(c, id, message) =>
          if c in stacks {
            var attempt := shared.Enter(id, message);
            if attempt.Entered? { stacks := stacks[c := stacks[c] + [id]]; }
          }
        case Leave(c) =>
          if c in stacks && stacks[c] != [] {
            var top := |stacks[c]| - 1;
            shared.Leave(stacks[c][top]);
            stacks := stacks[c := stacks[c][..top]];
          }
        case End(c) => if c in stacks && stacks[c] == [] { stacks := stacks - {c}; }
      }
    }
    assert actions[..|actions|] == actions;
  }

  predicate Holds(s: State, c: nat, i: nat, id: string) {
    c in s.stacks && i < |s.stacks[c]| && s.stacks[c][i] == id
  }

  /** One context per held resource, and nothing else held. */
  ghost predicate Exact(s: State) {
    && (forall c, i, id :: Holds(s, c, i, id) ==> id in s.table)
    && (forall id :: id in s.table ==> exists c, i :: Holds(s, c, i, id))
    && (forall c, i, d, j, id :: Holds(s, c, i, id) && Holds(s, d, j, id) ==> c == d && i == j)
  }

  lemma EnterExact(s: State, c: nat, id: string, message: Option<string>)
    requires Exact(s) && c in s.stacks && id !in s.table
    ensures Exact(Apply(s, Enter(c, id, message)))
  {
    var s' := Apply(s, Enter(c, id, message));
    var top := |s.stacks[c]|;
    assert Holds(s', c, top, id);
    forall d, j, x | Holds(s', d, j, x) && !(d == c && j == top) ensures Holds(s, d, j, x) {
    }
    forall x | x in s'.table ensures exists d, j :: Holds(s', d, j, x) {
      if x != id {
        var d, j :| Holds(s, d, j, x);
        assert Holds(s', d, j, x);
      }
    }
  }

  lemma LeaveExact(s: State, c: nat)
    requires Exact(s) && c in s.stacks && s.stacks[c] != []
    ensures Exact(Apply(s, Leave(c)))
  {
    var s' := Apply(s, Leave(c));
    var top := |s.stacks[c]| - 1;
    var id := s.stacks[c][top];
    assert Holds(s, c, top, id);
    forall d, j, x | Holds(s', d, j, x) ensures Holds(s, d, j, x) && x in s'.table {
      assert Holds(s, d, j, x);
    }
    forall x | x in s'.table ensures exists d, j :: Holds(s', d, j, x) {
      var d, j :| Holds(s, d, j, x);
      assert Holds(s', d, j, x);
    }
  }

  lemma BeginEndExact(s: State, s': State)
    requires Exact(s) && s'.table == s.table
    requires forall c, i, id :: Holds(s', c, i, id) <==> Holds(s, c, i, id)
    ensures Exact(s')
  {
    forall id | id in s'.table ensures exists c, i :: Holds(s', c, i, id) {
      var c, i :| Holds(s, c, i, id);
      assert Holds(s', c, i, id);
    }
  }

  lemma ApplyExact(s: State, a: Action)
    requires Exact(s)
    ensures Exact(Apply(s, a))
  {
    match a
    case Begin(c) => BeginEndExact(s, Apply(s, a));
    case Enter(c, id, message) => if c in s.stacks && id !in s.table { EnterExact(s, c, id, message); }
    case Leave(c) => if c in s.stacks && s.stacks[c] != [] { LeaveExact(s, c); }
    case End(c) => BeginEndExact(s, Apply(s, a));
  }

  /** In every interleaving of RPCs that stack any number of locks, each resource has at most one
      holder, and the table is exactly the resources of the contexts that are open. */
  lemma {:induction false} LocksExact(actions: seq<Action>)
    ensures Exact(Run(actions))
    decreases |actions|
  {
    if actions != [] {
      LocksExact(actions[..|actions| - 1]);
      ApplyExact(Run(actions[..|actions| - 1]), actions[|actions| - 1]);
    }
  }

  /** A refused attempt, even by the holder itself, changes nothing, and it is refused exactly
      when some open context holds the resource. */
  lemma RefusedLeavesTable(actions: seq<Action>, c: nat, id: string, message: Option<string>)
    requires c in Run(actions).stacks
    ensures var s := Run(actions);
            Apply(s, Enter(c, id, message)) == s <==> exists d, i :: Holds(s, d, i, id)
  {
    LocksExact(actions);
    var s := Run(actions);
    if id !in s.table { assert id in Apply(s, Enter(c, id, message)).table; }
  }

  lemma NothingHeld(s: State)
    requires Exact(s)
    ensures s.table != map[] ==> s.stacks != map[]
  {
    if s.table != map[] {
      assert s.table.Keys != {};
      var id :| id in s.table;
      var c, i :| Holds(s, c, i, id);
      assert c in s.stacks;
    }
  }

  /** When every call has ended the table is empty. */
  lemma EmptyWhenAllEnded(actions: seq<Action>)
    requires Run(actions).stacks == map[]
    ensures Run(actions).table == map[]
  {
    LocksExact(actions);
    NothingHeld(Run(actions));
  }

  /** What a refused call is shown, in every interleaving: the message of the call that entered, as long
      as the resource has not been left, or the default one if it gave none. */
  lemma {:induction false} RefusalShows(
    actions: seq<Action>, i: nat, c: nat, id: string, message: Option<string>, other: Option<string>)
    requires i < |actions| && actions[i] == Enter(c, id, message)
    requires c in Run(actions[..i]).stacks && id !in Run(actions[..i]).table
    requires forall j :: i < j <= |actions| ==> id in Run(actions[..j]).table
    ensures TryEnter(Run(actions).table, id, other).0
            == Refused(if message.Some? && message.value != "" then message.value
                       else "Resource " + id + " is currently locked")
    decreases |actions|
  {
    var front := actions[..|actions| - 1];
    assert actions[..|actions|] == actions;
    if i < |front| {
      assert front[..i] == actions[..i] && forall j :: i < j <= |front| ==> front[..j] == actions[..j];
      RefusalShows(front, i, c, id, message, other);
      assert id in Run(actions[..|front|]).table;
    }
  }
}
