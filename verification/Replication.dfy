/** The role state machine of plugins/replication.py: PromoteVolume and the other replication
    RPCs, retried against a backend that passes through transitional roles. */
module Replication {
  import opened Strings
  import opened Wrappers

  // ---------------------------------------------------------------- roles

  datatype Role =
    | Source | Destination | Standalone | Invalid | NotApplicable
    | BecomingSource | BecomingStandalone | BecomingDestination
    | GracefullyBecomingDestination | GracefullyBecomingSource
    | BecomingSourceAskForSource | BecomingSourceAttachingMembers
    | BecomingSourceFailingOverStandbyPeers | BecomingSourceGracefullyFailingOver
    | Unknown

  /** The member name in the ReplicationRole enumeration. */
  function Name(r: Role): string {
    match r
    case Source => "SOURCE"
    case Destination => "DESTINATION"
    case Standalone => "STANDALONE"
    case Invalid => "INVALID"
    case NotApplicable => "NA"
    case BecomingSource => "BECOMING" + "_SOURCE"
    case BecomingStandalone => "BECOMING" + "_STANDALONE"
    case BecomingDestination => "BECOMING" + "_DESTINATION"
    case GracefullyBecomingDestination => "GRACEFULLY_" + "BECOMING" + "_DESTINATION"
    case GracefullyBecomingSource => "GRACEFULLY_" + "BECOMING" + "_SOURCE"
    case BecomingSourceAskForSource => "BECOMING" + "_SOURCE_ASK_FOR_SOURCE"
    case BecomingSourceAttachingMembers => "BECOMING" + "_SOURCE_ATTACHING_MEMBERS"
    case BecomingSourceFailingOverStandbyPeers => "BECOMING" + "_SOURCE_FAILING_OVER_STANDBY_PEERS"
    case BecomingSourceGracefullyFailingOver => "BECOMING" + "_SOURCE_GRACEFULLY_FAILING_OVER"
    case Unknown => "UNKNOWN"
  }

  /** The value the backend reports. */
  function Value(r: Role): string {
    if r.NotApplicable? then "N/A" else Name(r)
  }

  /** `str.upper`, given the upper case of each character; that may be several characters. */
  type Casing = char -> string

  function Upper(s: string, up: Casing): string {
    if s == "" then "" else up(s[0]) + Upper(s[1..], up)
  }

  /** Enough for the texts the backend reports. */
  const ASCII_UPPER: Casing := c => if 'a' <= c <= 'z' then [(c - 'a') + 'A'] else [c]

  function Underscored(s: string): string {
    seq(|s|, i requires 0 <= i < |s| => if s[i] == ' ' then '_' else s[i])
  }

  /** `ReplicationRole.from_string`: the enumeration is looked up by member name. */
  function FromString(value: string, up: Casing): Role {
    if value == "" then Unknown
    else if Upper(value, up) == "N/A" then NotApplicable
    else
      var name := Underscored(Upper(value, up));
      if exists r :: Name(r) == name then
        NamesUnique(name);
        var r :| Name(r) == name;
        r
      else Unknown
  }

  /** `"BECOMING" in self.value`. */
  predicate IsTransitional(r: Role) {
    exists i: nat | i <= |Value(r)| :: OccursAt("BECOMING", Value(r), i)
  }

  function NameLength(r: Role): nat {
    match r
    case Source => 6
    case Destination => 11
    case Standalone => 10
    case Invalid => 7
    case NotApplicable => 2
    case BecomingSource => 15
    case BecomingStandalone => 19
    case BecomingDestination => 20
    case GracefullyBecomingDestination => 31
    case GracefullyBecomingSource => 26
    case BecomingSourceAskForSource => 30
    case BecomingSourceAttachingMembers => 33
    case BecomingSourceFailingOverStandbyPeers => 42
    case BecomingSourceGracefullyFailingOver => 39
    case Unknown => 7
  }

  lemma NameLengthCorrect(r: Role)
    ensures |Name(r)| == NameLength(r)
  {
  }

  lemma NamesDistinct(a: Role, b: Role)
    requires Name(a) == Name(b)
    ensures a == b
  {
    NameLengthCorrect(a);
    NameLengthCorrect(b);
    assert Name(Invalid)[0] == 'I' && Name(Unknown)[0] == 'U';
  }

  lemma NamesUnique(name: string)
    ensures forall a, b :: Name(a) == name && Name(b) == name ==> a == b
  {
    forall a, b | Name(a) == name && Name(b) == name ensures a == b {
      NamesDistinct(a, b);
    }
  }

  /** A text is read as a proper role exactly when it spells that role's name, in any case and
      with spaces or underscores, or spells N/A. */
  lemma FromStringExact(s: string, up: Casing, r: Role)
    requires !r.Unknown?
    ensures FromString(s, up) == r <==>
            || (r.NotApplicable? && Upper(s, up) == "N/A")
            || (Upper(s, up) != "N/A" && Underscored(Upper(s, up)) == Name(r))
  {
    NameLengthCorrect(r);
    var spelled := Underscored(Upper(s, up));
    if s != "" && Upper(s, up) != "N/A" && exists q :: Name(q) == spelled {
      if spelled == Name(r) { NamesDistinct(FromString(s, up), r); }
    }
  }

  /** Upper-casing keeps the characters that the names are made of. */
  ghost predicate KeepsNames(up: Casing) {
    forall c :: NameChar(c) ==> up(c) == [c]
  }

  predicate NameChar(c: char) {
    'A' <= c <= 'Z' || c == '_' || c == '/'
  }

  predicate Capital(s: string) {
    forall i :: 0 <= i < |s| ==> NameChar(s[i])
  }

  lemma {:induction false} UpperCapital(s: string, up: Casing)
    requires KeepsNames(up) && Capital(s)
    ensures Upper(s, up) == s && Underscored(s) == s
    decreases |s|
  {
    if s != "" {
      UpperCapital(s[1..], up);
      assert s == [s[0]] + s[1..];
      assert forall i :: 0 < i < |s| ==> s[i] == s[1..][i - 1];
      assert forall i :: 0 <= i < |s[1..]| ==> Underscored(s[1..])[i] == s[1..][i];
    }
  }

  lemma CapitalConcat(a: string, b: string)
    requires Capital(a) && Capital(b)
    ensures Capital(a + b)
  {
  }

  lemma CapitalWords()
    ensures Capital("SOURCE") && Capital("DESTINATION") && Capital("STANDALONE") && Capital("INVALID")
    ensures Capital("N/A") && Capital("UNKNOWN") && Capital("BECOMING") && Capital("GRACEFULLY_")
  {
  }

  lemma CapitalEndings()
    ensures Capital("_SOURCE") && Capital("_STANDALONE") && Capital("_DESTINATION")
    ensures Capital("_SOURCE_ASK_FOR_SOURCE") && Capital("_SOURCE_ATTACHING_MEMBERS")
  {
  }

  lemma CapitalLongEndings()
    ensures Capital("_SOURCE_FAILING_OVER_STANDBY_PEERS") && Capital("_SOURCE_GRACEFULLY_FAILING_OVER")
  {
  }

  /** The end of a role's name. */
  function Ending(r: Role): string {
    match r
    case BecomingStandalone => "_STANDALONE"
    case BecomingDestination => "_DESTINATION"
    case GracefullyBecomingDestination => "_DESTINATION"
    case BecomingSourceAskForSource => "_SOURCE_ASK_FOR_SOURCE"
    case BecomingSourceAttachingMembers => "_SOURCE_ATTACHING_MEMBERS"
    case BecomingSourceFailingOverStandbyPeers => "_SOURCE_FAILING_OVER_STANDBY_PEERS"
    case BecomingSourceGracefullyFailingOver => "_SOURCE_GRACEFULLY_FAILING_OVER"
    case _ => "_SOURCE"
  }

  lemma CapitalNames(r: Role)
    ensures Capital(Value(r))
  {
    CapitalWords();
    if !Settled(r) {
      CapitalEndings();
      CapitalLongEndings();
      assert Capital(Ending(r));
      CapitalConcat("GRACEFULLY_", "BECOMING");
      CapitalConcat("GRACEFULLY_" + "BECOMING", Ending(r));
      CapitalConcat("BECOMING", Ending(r));
    }
  }

  /** What the backend reports for a role is read as that role. */
  lemma ValueReadsBack(r: Role, up: Casing)
    requires KeepsNames(up)
    ensures FromString(Value(r), up) == r
  {
    CapitalNames(r);
    UpperCapital(Value(r), up);
    NameLengthCorrect(r);
    if !r.Unknown? {
      NameIsNotNA(r);
      FromStringExact(Value(r), up, r);
    } else {
      NameIsNotNA(r);
      assert Name(r) == Value(r);
      NamesUnique(Name(r));
    }
  }

  lemma {:induction false} UpperAscii(s: string)
    ensures |Upper(s, ASCII_UPPER)| == |s|
    ensures forall i :: 0 <= i < |s| ==>
              Upper(s, ASCII_UPPER)[i] == if 'a' <= s[i] <= 'z' then (s[i] - 'a') + 'A' else s[i]
    decreases |s|
  {
    if s != "" {
      UpperAscii(s[1..]);
      assert forall i :: 0 < i < |s| ==> s[i] == s[1..][i - 1];
    }
  }

  /** The text spells the name: letters in either case, and a space or an underscore between words. */
  predicate Spells(s: string, name: string) {
    |s| == |name|
    && forall i :: 0 <= i < |s| ==>
         || s[i] == name[i]
         || ('A' <= name[i] <= 'Z' && s[i] as int - 'a' as int == name[i] as int - 'A' as int)
         || (name[i] == '_' && s[i] == ' ')
  }

  /** However a role is spelled, it is read as that role. */
  lemma SpellingReads(s: string, r: Role)
    requires Spells(s, Value(r))
    ensures FromString(s, ASCII_UPPER) == r
  {
    var v, u := Value(r), Upper(s, ASCII_UPPER);
    CapitalNames(r);
    UpperAscii(s);
    assert Capital(v) && |u| == |v|;
    forall i | 0 <= i < |v| ensures u[i] == v[i] || (v[i] == '_' && u[i] == ' ') {
      assert NameChar(v[i]);
    }
    NameLengthCorrect(r);
    assert Underscored(u) == v;
    if r.NotApplicable? {
      assert u == v;
    } else if !r.Unknown? {
      FromStringExact(s, ASCII_UPPER, r);
    } else {
      NamesUnique(v);
      assert Name(r) == v;
    }
  }

  lemma NameIsNotNA(r: Role)
    ensures !r.NotApplicable? ==> Value(r) != "N/A" && Value(r) != ""
  {
    NameLengthCorrect(r);
  }

  lemma OccursWithB(v: string)
    ensures forall i: nat :: OccursAt("BECOMING", v, i) ==> 'B' in v
  {
    forall i: nat | OccursAt("BECOMING", v, i) ensures 'B' in v {
      assert v[i] == v[i..i + 8][0] == 'B';
    }
  }

  lemma OccursInside(a: string, b: string)
    ensures OccursAt("BECOMING", a + "BECOMING" + b, |a|)
  {
  }

  predicate Settled(r: Role) {
    r.Source? || r.Destination? || r.Standalone? || r.Invalid? || r.NotApplicable? || r.Unknown?
  }

  lemma SettledHasNoB(r: Role)
    requires Settled(r)
    ensures 'B' !in Value(r)
  {
  }

  lemma GracefullyBecoming(r: Role)
    requires r.GracefullyBecomingSource? || r.GracefullyBecomingDestination?
    ensures OccursAt("BECOMING", Value(r), |"GRACEFULLY_"|)
  {
    OccursInside("GRACEFULLY_", if r.GracefullyBecomingSource? then "_SOURCE" else "_DESTINATION");
  }

  lemma Becoming(r: Role)
    requires !Settled(r) && !r.GracefullyBecomingSource? && !r.GracefullyBecomingDestination?
    ensures OccursAt("BECOMING", Value(r), 0)
  {
    assert |"BECOMING"| == 8;
  }

  /** Exactly the nine roles on the way to another role are transitional. */
  lemma TransitionalRoles(r: Role)
    ensures IsTransitional(r) <==> !Settled(r)
  {
    if Settled(r) {
      SettledHasNoB(r);
      OccursWithB(Value(r));
    } else if r.GracefullyBecomingSource? || r.GracefullyBecomingDestination? {
      GracefullyBecoming(r);
    } else {
      Becoming(r);
    }
  }

  // ---------------------------------------------------------------- the backend

  /** Where the backend is on the way from DESTINATION to SOURCE. `via` is the transitional role
      it reports meanwhile. */
  datatype Phase =
    | AtDestination
    | LeavingGracefully(via: Role)
    | LeavingUngracefully(via: Role)
    | AtStandalone
    | Rising(via: Role)
    | AtSource
    | Elsewhere(role: Role)            // INVALID, N/A or UNKNOWN: promotion only waits

  datatype Request = Failover(graceful: bool) | ForceFailover

  function RoleOf(p: Phase): Role {
    match p
    case AtDestination => Destination
    case LeavingGracefully(via) => via
    case LeavingUngracefully(via) => via
    case AtStandalone => Standalone
    case Rising(via) => via
    case AtSource => Source
    case Elsewhere(role) => role
  }

  predicate InTransit(p: Phase) {
    p.LeavingGracefully? || p.LeavingUngracefully? || p.Rising?
  }

  /** How far the promotion still has to go. */
  function Rank(p: Phase): nat {
    match p
    case AtDestination => 4
    case LeavingUngracefully(_) => 3
    case AtStandalone => 2
    case Rising(_) => 1
    case LeavingGracefully(_) => 1
    case AtSource => 0
    case Elsewhere(_) => 5
  }

  /** Where an accepted request leads once its transition is over. */
  function Landing(p: Phase): Phase {
    match p
    case LeavingGracefully(_) => AtSource
    case LeavingUngracefully(_) => AtStandalone
    case Rising(_) => AtSource
    case _ => p
  }

  /** The requests a path must have accepted to be in a phase, after resting at `start`. */
  predicate Explains(start: Phase, requests: seq<Request>, p: Phase) {
    match start
    case AtDestination => ExplainsFromDestination(requests, p)
    case AtStandalone => if p.AtStandalone? then requests == [] else Ends(p) && requests == [ForceFailover]
    case AtSource => p == start && requests == []
    case Elsewhere(_) => p == start && requests == []
    case _ => false
  }

  /** On the way from STANDALONE to SOURCE, or there. */
  predicate Ends(p: Phase) {
    p.Rising? || p.AtSource?
  }

  predicate ExplainsFromDestination(requests: seq<Request>, p: Phase) {
    match p
    case AtDestination => requests == []
    case Elsewhere(_) => false
    case LeavingGracefully(_) => requests == [Failover(true)]
    case LeavingUngracefully(_) => requests == [Failover(false)]
    case AtStandalone => requests == [Failover(false)]
    case Rising(_) => requests == [Failover(false), ForceFailover]
    case AtSource => requests == [Failover(true)] || requests == [Failover(false), ForceFailover]
  }

  /** Where a path can rest before the first call. */
  predicate Resting(p: Phase) {
    p.AtDestination? || p.AtStandalone? || p.AtSource? || (p.Elsewhere? && Outside(p.role))
  }

  datatype Reply = Success | Failure   // Failure: ABORTED, or another error

  /** Looking the path up: found, not there in time, no cluster to ask, or an error status. */
  datatype Lookup = Found | Missing | Unreachable | Rejected

  /** The state of a found path; an inactive one may become active while the RPC waits. */
  datatype PathState = Active | PartiallyActive | Inactive(becomesActive: bool)

  /** What the backend does with one RPC: how it answers the lookup, whether the path's protection
      policy exists, whether it accepts a request, and the transitional role it shows at the next
      read, if it has not reached the next role by then. */
  datatype Answer = Answer(lookup: Lookup, state: PathState, policy: bool, accepts: bool, via: Option<Role>)

  predicate Ready(answer: Answer) {
    answer.lookup.Found? && (answer.state.Inactive? ==> answer.state.becomesActive)
  }

  /** The phase at the next read after the backend accepted a request that leads there. */
  function Arrive(transit: Phase, answer: Answer): Phase {
    if answer.via.Some? then transit else Landing(transit)
  }

  /** The phase at the next read after PromoteVolume. */
  function AfterPromote(p: Phase, graceful: bool, answer: Answer): Phase {
    var via := if answer.via.Some? then answer.via.value else BecomingSource;
    if !Ready(answer) || !answer.accepts then p
    else if p.AtDestination? then
      Arrive(if graceful then LeavingGracefully(via) else LeavingUngracefully(via), answer)
    else if p.AtStandalone? && !graceful then Arrive(Rising(via), answer)
    else p
  }

  /** An accepted promotion step always comes closer to SOURCE. */
  lemma PromoteDescends(p: Phase, graceful: bool, answer: Answer)
    ensures Rank(AfterPromote(p, graceful, answer)) <= Rank(p)
    ensures AfterPromote(p, graceful, answer) != p ==> Rank(AfterPromote(p, graceful, answer)) < Rank(p)
    ensures AfterPromote(p, graceful, answer) == p && Ready(answer) && answer.accepts
            ==> InTransit(p) || p.AtSource? || p.Elsewhere? || (p.AtStandalone? && graceful)
  {
  }

  datatype Event =
    | Promote(graceful: bool, answer: Answer)
    | Enable(answer: Answer)
    | Disable(answer: Answer)
    | Demote(answer: Answer)
    | Resync(answer: Answer)
    | BackendMoves(to: Option<Role>)   // another transitional role, or the end of the transition

  class ProtectedPath {
    ghost const start: Phase
    var phase: Phase
    var enabled: bool
    ghost var requests: seq<Request>   // role changes the backend accepted, in order

    constructor (start: Phase, enabled: bool)
      requires Resting(start)
      ensures Valid() && phase == this.start == start && requests == [] && this.enabled == enabled
    {
      this.start, phase, this.enabled, requests := start, start, enabled, [];
    }

    ghost predicate Valid()
      reads this
    {
      && (InTransit(phase) ==> IsTransitional(RoleOf(phase)))
      && (phase.Elsewhere? ==> Outside(phase.role))
      && Explains(start, requests, phase)
    }

    /** After an accepted request the role has moved on by the next read. */
    method Accept(request: Request, transit: Phase, answer: Answer)
      requires InTransit(transit) && IsTransitional(RoleOf(transit)) && Explains(start, requests + [request], transit)
      modifies this`phase, this`requests
      ensures Valid() && requests == old(requests) + [request] && phase == Arrive(transit, answer)
    {
      requests := requests + [request];
      phase := if answer.via.Some? then transit else Landing(transit);
    }

    /** `ReplicationRole.from_string(ppath.get("role"))`. */
    method ReadRole() returns (role: Role)
      ensures role == RoleOf(phase)
    {
      ValueReadsBack(RoleOf(phase), ASCII_UPPER);
      role := FromString(Value(RoleOf(phase)), ASCII_UPPER);
    }

    method PromoteVolume(graceful: bool, answer: Answer) returns (reply: Reply)
      requires Valid() && (answer.via.Some? ==> IsTransitional(answer.via.value))
      modifies this
      ensures Valid() && phase == AfterPromote(old(phase), graceful, answer)
      // success exactly on a path that was read as SOURCE, and it ends enabled
      ensures reply.Success? <==> old(phase).AtSource? && Ready(answer) && (old(enabled) || answer.accepts)
      ensures enabled == (old(enabled) || reply.Success?)
      // at most one request per call, the one the role asks for; none in a transitional role
      ensures requests == old(requests) +
                if phase == old(phase) then []
                else if old(phase).AtDestination? then [Failover(graceful)] else [ForceFailover]
    {
      TransitionalRoles(RoleOf(phase));
      TransitionalRoles(BecomingSource);
      if !Ready(answer) { return Failure; }
      var role := ReadRole();   // the record is read once
      if IsTransitional(role) { return Failure; }
      var via := if answer.via.Some? then answer.via.value else BecomingSource;
      if role.Destination? {
        if !answer.accepts { return Failure; }
        Accept(Failover(graceful), if graceful then LeavingGracefully(via) else LeavingUngracefully(via), answer);
      }
      if !graceful && role.Standalone? {
        if !answer.accepts { return Failure; }
        Accept(ForceFailover, Rising(via), answer);
      }
      if !role.Source? { return Failure; }
      reply := EnsureEnabled(answer);
    }

    /** `ensure_set_enabled(ppath, True)`: no request when it is enabled already. */
    method EnsureEnabled(answer: Answer) returns (reply: Reply)
      modifies this`enabled
      ensures reply.Success? <==> old(enabled) || answer.accepts
      ensures enabled == (old(enabled) || reply.Success?)
    {
      if !enabled {
        if !answer.accepts { return Failure; }
        enabled := true;
      }
      return Success;
    }

    method EnableVolumeReplication(answer: Answer) returns (reply: Reply)
      modifies this`enabled
      // the path is found, and active or soon active
      ensures reply.Success? <==>
              && answer.lookup.Found?
              && (answer.state.Active? || answer.state.PartiallyActive? || answer.state == Inactive(true))
              && (old(enabled) || answer.accepts)
      ensures enabled == (old(enabled) || reply.Success?)
    {
      if !Ready(answer) { return Failure; }
      reply := EnsureEnabled(answer);
    }

    /** An unreachable or missing path counts as disabled. */
    method DisableVolumeReplication(answer: Answer) returns (reply: Reply)
      modifies this`enabled
      ensures reply.Success? <==>
              match answer.lookup
              case Found => !old(enabled) || answer.accepts
              case Missing => true
              case Unreachable => true
              case Rejected => false
      ensures enabled == (old(enabled) && !(reply.Success? && answer.lookup.Found?))
    {
      match answer.lookup
      case Missing => return Success;
      case Unreachable => return Success;
      case Rejected => return Failure;
      case Found =>
        if enabled {
          if !answer.accepts { return Failure; }
          enabled := false;
        }
        return Success;
    }

    /** Demotion asks the backend for no role change: it only enables replication, and an
        unreachable cluster counts as demoted. */
    method DemoteVolume(answer: Answer) returns (reply: Reply)
      modifies this`enabled
      ensures reply.Success? <==> answer.lookup.Unreachable? || (Ready(answer) && (old(enabled) || answer.accepts))
      ensures enabled == (old(enabled) || (reply.Success? && answer.lookup.Found?))
    {
      if answer.lookup.Unreachable? { return Success; }
      if !Ready(answer) { return Failure; }
      reply := EnsureEnabled(answer);
    }

    /** Replicates now on SOURCE, waits during a transition, and does nothing elsewhere. `ready`
        is told only after a success: on SOURCE, whether the path was active. */
    method ResyncVolume(answer: Answer) returns (reply: Reply, ready: bool, replicated: bool)
      ensures replicated <==>
              answer.lookup.Found? && RoleOf(phase).Source? && answer.policy && answer.accepts
      ensures reply.Success? <==>
              && answer.lookup.Found? && !IsTransitional(RoleOf(phase))
              && (RoleOf(phase).Source? ==> answer.policy && answer.accepts)
      ensures ready <==> reply.Success? && (RoleOf(phase).Source? ==> answer.state.Active?)
    {
      TransitionalRoles(Source);
      if !answer.lookup.Found? { return Failure, false, false; }
      var role := ReadRole();
      if IsTransitional(role) { return Failure, false, false; }
      if !role.Source? { return Success, true, false; }
      if !answer.policy { return Failure, false, false; }     // NOT_FOUND
      if !answer.accepts { return Failure, false, false; }
      return Success, answer.state.Active?, true;
    }

    /** The backend goes on by itself: only while a transition runs. */
    method Move(to: Option<Role>)
      requires Valid() && (to.Some? ==> IsTransitional(to.value))
      modifies this`phase
      ensures Valid() && Rank(phase) <= Rank(old(phase))
      ensures Landing(phase) == Landing(old(phase))
      ensures to.None? ==> phase == Landing(old(phase))
      ensures to.Some? && InTransit(old(phase)) ==> InTransit(phase) && RoleOf(phase) == to.value
      ensures !InTransit(old(phase)) ==> phase == old(phase)
    {
      match to
      case None => phase := Landing(phase);
      case Some(role) =>
        match phase
        case LeavingGracefully(_) => phase := LeavingGracefully(role);
        case LeavingUngracefully(_) => phase := LeavingUngracefully(role);
        case Rising(_) => phase := Rising(role);
        case _ =>
    }

    /** Any sequence of replication RPCs and backend moves. From DESTINATION the role changes
        accepted are at most one failover, then at most one force_failover after an ungraceful one;
        from STANDALONE at most one force_failover; elsewhere none. A promotion that succeeded saw
        SOURCE after all of them. */
    method Run(events: seq<Event>) returns (promoted: bool)
      requires Valid()
      requires forall i :: 0 <= i < |events| ==> Sensible(events[i])
      modifies this
      ensures Valid() && Rank(phase) <= Rank(old(phase)) && old(requests) <= requests
      ensures promoted ==> phase.AtSource?
      ensures start.AtStandalone? ==> requests <= [ForceFailover] && (promoted ==> requests == [ForceFailover])
      ensures start.AtSource? || start.Elsewhere? ==> requests == [] && phase == start
      ensures (forall i :: 0 <= i < |events| && events[i].Promote? ==> !events[i].graceful) && old(phase).AtDestination?
              ==> requests <= [Failover(false), ForceFailover]
                  && (promoted ==> requests == [Failover(false), ForceFailover])
    {
      promoted := false;
      ghost var ungraceful :=
        && old(phase).AtDestination?
        && forall k :: 0 <= k < |events| && events[k].Promote? ==> !events[k].graceful;
      for i := 0 to |events|
        invariant Valid() && Rank(phase) <= Rank(old(phase)) && old(requests) <= requests
        invariant promoted ==> phase.AtSource?
        invariant ungraceful ==> !phase.LeavingGracefully? && Failover(true) !in requests
      {
        match events[i]
        case Promote(graceful, answer) =>
          var reply := PromoteVolume(graceful, answer);
          promoted := promoted || reply.Success?;
        case Enable(answer) => var _ := EnableVolumeReplication(answer);
        case Disable(answer) => var _ := DisableVolumeReplication(answer);
        case Demote(answer) => var _ := DemoteVolume(answer);
        case Resync(answer) => var _, _, _ := ResyncVolume(answer);
        case BackendMoves(to) => Move(to);
      }
    }

    /** Ungraceful promotion, retried once per round until it succeeds or the rounds are over;
        after each call the backend may go on. Rounds that find no ready path, or are refused, or
        find the backend in transition, only cost their call: of the others, three suffice. */
    method PromoteUntilDone(rounds: seq<Round>) returns (done: bool, useful: nat, refused: nat, waiting: nat)
      requires Valid() && phase.AtDestination?
      requires forall i :: 0 <= i < |rounds| ==> SensibleRound(rounds[i])
      modifies this
      ensures Valid() && useful <= 3 && useful + refused + waiting <= |rounds|
      ensures refused == Refusals(rounds[..useful + refused + waiting])
      // it succeeds at the latest with the third useful call
      ensures !done ==> useful + refused + waiting == |rounds| && useful < 3
      ensures done ==> useful >= 2
      // the first two useful calls make the two requests, no other call makes any
      ensures |requests| == if useful < 2 then useful else 2
      ensures done ==> phase.AtSource? && enabled && requests == [Failover(false), ForceFailover]
      ensures requests <= [Failover(false), ForceFailover]
    {
      done, useful, refused, waiting := false, 0, 0, 0;
      assert rounds[..0] == [];
      for i := 0 to |rounds|
        invariant Valid() && !done && useful + refused + waiting == i
        invariant useful <= 2 && |requests| == useful && refused == Refusals(rounds[..i])
        invariant phase.AtDestination? <==> useful == 0
        invariant phase.AtSource? || phase.Rising? <==> useful == 2
        invariant !phase.LeavingGracefully? && !phase.Elsewhere? && Failover(true) !in requests
      {
        var Round(answer, to) := rounds[i];
        assert rounds[..i + 1][..i] == rounds[..i];
        TransitionalRoles(RoleOf(phase));
        if Refuses(rounds[i]) {
          refused := refused + 1;
        } else if IsTransitional(RoleOf(phase)) {
          waiting := waiting + 1;
        } else {
          useful := useful + 1;
        }
        var reply := PromoteVolume(false, answer);
        if reply.Success? {
          done := true;
          return;
        }
        if to.Some? { Move(to.value); }
      }
    }

    /** Graceful promotion, retried in the same way. From DESTINATION two useful calls suffice, and
        one failover is the only request. From STANDALONE it never succeeds: no call requests
        anything, so the path stays there. */
    method PromoteGracefully(rounds: seq<Round>)
      returns (done: bool, useful: nat, refused: nat, waiting: nat)
      requires Valid() && ((phase.AtDestination? && start.AtDestination?) || phase.AtStandalone?)
      requires forall i :: 0 <= i < |rounds| ==> SensibleRound(rounds[i])
      modifies this
      ensures Valid() && useful + refused + waiting <= |rounds|
      ensures refused == Refusals(rounds[..useful + refused + waiting])
      ensures !done ==> useful + refused + waiting == |rounds|
      ensures old(phase).AtDestination? ==>
                && (done ==> phase.AtSource? && enabled && requests == [Failover(true)] && 1 <= useful <= 2)
                && (!done ==> useful < 2)
                && requests == if useful == 0 then [] else [Failover(true)]
      ensures old(phase).AtStandalone? ==>
                !done && phase == old(phase) && requests == old(requests) && enabled == old(enabled) && waiting == 0
    {
      done, useful, refused, waiting := false, 0, 0, 0;
      assert rounds[..0] == [];
      for i := 0 to |rounds|
        invariant Valid() && !done && useful + refused + waiting == i && refused == Refusals(rounds[..i])
        invariant old(phase).AtDestination? ==>
                    && useful <= 1 && requests == (if useful == 0 then [] else [Failover(true)])
                    && (if useful == 0 then phase.AtDestination? else phase.LeavingGracefully? || phase.AtSource?)
        invariant old(phase).AtStandalone? ==>
                    phase == old(phase) && requests == old(requests) && enabled == old(enabled) && waiting == 0
      {
        var Round(answer, to) := rounds[i];
        assert rounds[..i + 1][..i] == rounds[..i];
        TransitionalRoles(RoleOf(phase));
        if Refuses(rounds[i]) {
          refused := refused + 1;
        } else if IsTransitional(RoleOf(phase)) {
          waiting := waiting + 1;
        } else {
          useful := useful + 1;
        }
        var reply := PromoteVolume(true, answer);
        if reply.Success? {
          done := true;
          return;
        }
        if to.Some? { Move(to.value); }
      }
    }
  }

  /** How the backend answers a call, and how it goes on after it: not at all, to another
      transitional role, or to the end of its transition. */
  datatype Round = Round(answer: Answer, to: Option<Option<Role>>)

  predicate Refuses(r: Round) {
    !Ready(r.answer) || !r.answer.accepts
  }

  /** How many of the rounds find no ready path or are refused. */
  function Refusals(rounds: seq<Round>): nat {
    if rounds == [] then 0
    else Refusals(rounds[..|rounds| - 1]) + if Refuses(rounds[|rounds| - 1]) then 1 else 0
  }

  predicate SensibleRound(r: Round) {
    && (r.answer.via.Some? ==> IsTransitional(r.answer.via.value))
    && (r.to.Some? && r.to.value.Some? ==> IsTransitional(r.to.value.value))
  }

  predicate Outside(r: Role) {
    r.Invalid? || r.NotApplicable? || r.Unknown?
  }

  predicate Sensible(e: Event) {
    match e
    case BackendMoves(to) => to.Some? ==> IsTransitional(to.value)
    case Promote(_, answer) => answer.via.Some? ==> IsTransitional(answer.via.value)
    case _ => true
  }
}
