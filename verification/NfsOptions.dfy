/** The option string of an NFS mount: plugins/nfs.py joins the flags with commas, cuts the
    string at every comma again, and hands the pieces to the quote-aware `mount`. */
module NfsOptions {
  import opened Lists
  import opened Wrappers
  import opened MountFlags
  import opened Strings

  /** Python's `s.split(",")`. */
  function Pieces(s: string): seq<string>
    decreases |s|
  {
    var n := IndexOf(s, ',');
    if n == |s| then [s] else [s[..n]] + Pieces(s[n + 1..])
  }

  /** `[f.strip() for f in fs if f.strip()]`. */
  function Trimmed(fs: seq<string>): seq<string> {
    if fs == [] then []
    else (if Strip(fs[0]) == "" then [] else [Strip(fs[0])]) + Trimmed(fs[1..])
  }

  /** The flags that filesystem_utils.mount passes on; a bind mount is made read-only afterwards. */
  function UsedFlags(flags: Flags, bind: bool, enforceRo: bool): seq<string> {
    var read := Split(flags);
    var wanted := if enforceRo && "ro" !in read then read + ["ro"] else read;
    if bind then Without(wanted, "ro") else wanted
  }

  /** The `-o` argument it builds; none when no flag is left. */
  function MountArgument(flags: Flags, bind: bool, enforceRo: bool): Option<string> {
    var used := UsedFlags(flags, bind, enforceRo);
    if used == [] then None else Some(Join(used))
  }

  /** The flag list that NodePublishVolume assembled, as plugins/nfs.py hands it to mount. */
  function Handed(flags: seq<string>): Flags {
    Listed(Trimmed(Pieces(CommaJoin(flags))))
  }

  /** The flags of an NFS publish that reach the mount command. */
  function PassedFlags(flags: seq<string>): seq<string> {
    UsedFlags(Handed(flags), false, false)
  }

  /** The `-o` argument of an NFS publish. */
  function NfsMountArgument(flags: seq<string>): Option<string> {
    MountArgument(Handed(flags), false, false)
  }

  // ---------------------------------------------------------------- commas

  lemma {:induction false} JoinPieces(s: string)
    ensures CommaJoin(Pieces(s)) == s
    decreases |s|
  {
    var n := IndexOf(s, ',');
    if n < |s| {
      JoinPieces(s[n + 1..]);
      assert s == s[..n] + [s[n]] + s[n + 1..];
      assert Pieces(s)[1..] == Pieces(s[n + 1..]);
    }
  }

  predicate CommaFree(ts: seq<string>) {
    forall i :: 0 <= i < |ts| ==> ',' !in ts[i]
  }

  lemma {:induction false} FirstCommaAfter(t: string, rest: string)
    requires ',' !in t
    ensures IndexOf(t + "," + rest, ',') == |t|
  {
    var s := t + "," + rest;
    assert s[|t|] == ',' && s[..|t|] == t;
    assert forall n :: |t| < n <= |s| ==> s[..n][|t|] == ',';
  }

  lemma {:induction false} PiecesOfJoin(ts: seq<string>)
    requires ts != [] && CommaFree(ts)
    ensures Pieces(CommaJoin(ts)) == ts
    decreases |ts|
  {
    var t := ts[0];
    if |ts| == 1 {
      assert ',' !in t;
    } else {
      var rest := CommaJoin(ts[1..]);
      var s := t + "," + rest;
      FirstCommaAfter(t, rest);
      assert s[..|t|] == t && s[|t| + 1..] == rest;
      PiecesOfJoin(ts[1..]);
    }
  }

  // ---------------------------------------------------------------- pieces that survive

  lemma TokenAlone(t: string)
    requires Token(t)
    ensures Strip(t) == t && SplitItem(t) == [t]
  {
    FlushBuffer(t);
    assert Clean([t]);
    CommaJoinRoundTrip([t]);
  }

  lemma {:induction false} TokensPassThrough(ts: seq<string>)
    requires AllTokens(ts)
    ensures Trimmed(ts) == ts && SplitItems(ts) == ts
    decreases |ts|
  {
    if ts != [] {
      TokenAlone(ts[0]);
      assert forall i :: 0 <= i < |ts[1..]| ==> ts[1..][i] == ts[i + 1];
      TokensPassThrough(ts[1..]);
    }
  }

  lemma {:induction false} RStripKeepsOut(s: string, c: char)
    requires c !in s
    ensures c !in RStrip(s)
  {
    RStripPrefix(s);
  }

  lemma {:induction false} LStripKeepsOut(s: string, c: char)
    requires c !in s
    ensures c !in LStrip(s)
    decreases |s|
  {
    if s != "" && IsSpace(s[0]) { LStripKeepsOut(s[1..], c); }
  }

  lemma {:induction false} LexCommaFree(text: string, buf: string, q: bool)
    requires ',' !in text && ',' !in buf
    ensures CommaFree(Lex(text, buf, q))
    decreases |text|
  {
    LStripKeepsOut(buf, ',');
    RStripKeepsOut(LStrip(buf), ',');
    if text != "" {
      var c := text[0];
      LexCommaFree(text[1..], "", q);
      LexCommaFree(text[1..], buf + [c], if c == '"' then !q else q);
    }
  }

  lemma {:induction false} DropBracketsKeepsOut(s: string, c: char)
    requires c !in s
    ensures c !in DropBrackets(s)
    decreases |s|
  {
    if s != "" { DropBracketsKeepsOut(s[1..], c); }
  }

  lemma {:induction false} SplitCommaFree(items: seq<string>)
    requires CommaFree(items)
    ensures CommaFree(SplitItems(items))
    decreases |items|
  {
    if items != [] {
      DropBracketsKeepsOut(items[0], ',');
      LexCommaFree(DropBrackets(items[0]), "", false);
      SplitCommaFree(items[1..]);
    }
  }

  lemma {:induction false} PiecesCommaFree(s: string)
    ensures CommaFree(Pieces(s))
    decreases |s|
  {
    var n := IndexOf(s, ',');
    if n < |s| { PiecesCommaFree(s[n + 1..]); } else { assert s[..n] == s; }
  }

  lemma {:induction false} TrimmedCommaFree(fs: seq<string>)
    requires CommaFree(fs)
    ensures CommaFree(Trimmed(fs))
    decreases |fs|
  {
    if fs != [] {
      LStripKeepsOut(fs[0], ',');
      RStripKeepsOut(LStrip(fs[0]), ',');
      TrimmedCommaFree(fs[1..]);
    }
  }

  lemma {:induction false} WithoutCorrect(fs: seq<string>, f: string)
    ensures forall x :: x in Without(fs, f) <==> x in fs && x != f
    decreases |fs|
  {
    if fs != [] {
      WithoutCorrect(fs[1..], f);
      assert fs == [fs[0]] + fs[1..];
    }
  }

  /** Read-only handling of every mount: no flag but `ro` is added or lost; a bind mount never gets
      `ro`, any other mount gets it exactly when it was asked for or is enforced; and the argument
      reads back as the flags if no flag but the last leaves a quote open. */
  lemma UsedFlagsCorrect(flags: Flags, bind: bool, enforceRo: bool)
    ensures var used := UsedFlags(flags, bind, enforceRo);
            && AllTokens(used)
            && (forall f :: f != "ro" ==> (f in used <==> f in Split(flags)))
            && ("ro" in used <==> !bind && (enforceRo || "ro" in Split(flags)))
            && (used != [] ==>
                  (Split(Text(MountArgument(flags, bind, enforceRo).value)) == used <==> AllButLastBalanced(used)))
  {
    var read := Split(flags);
    SplitItemsTokens(Items(flags));
    var wanted := if enforceRo && "ro" !in read then read + ["ro"] else read;
    WithoutCorrect(wanted, "ro");
    var used := UsedFlags(flags, bind, enforceRo);
    ReadonlyToken();
    forall i | 0 <= i < |used| ensures Token(used[i]) {
      assert used[i] in wanted;
    }
    FormattedTokens(used);
    SplitText(Join(used));
    CommaJoinRoundTrip(used);
  }

  lemma ReadonlyToken()
    ensures Token("ro")
  {
    assert "ro"[1..] == "o" && "o"[1..] == "";
  }

  /** The argument given to mount is the comma-join of the original flags exactly when every
      piece between commas is a token on its own: non-empty, without brackets, and without
      space outside the quotes that the piece itself opens. */
  lemma NfsArgumentIsJoin(flags: seq<string>)
    requires CommaJoin(flags) != ""
    ensures NfsMountArgument(flags) == Some(CommaJoin(flags)) <==> AllTokens(Pieces(CommaJoin(flags)))
  {
    var s := CommaJoin(flags);
    var ps := Pieces(s);
    var read := SplitItems(Trimmed(ps));
    PiecesCommaFree(s);
    TrimmedCommaFree(ps);
    SplitCommaFree(Trimmed(ps));
    SplitItemsTokens(Trimmed(ps));
    FormattedTokens(read);
    JoinPieces(s);
    if AllTokens(ps) {
      TokensPassThrough(ps);
    } else if read != [] {
      PiecesOfJoin(read);
    }
  }

  /** No flags at all: no `-o` argument. */
  lemma NfsArgumentEmpty(flags: seq<string>)
    requires CommaJoin(flags) == ""
    ensures NfsMountArgument(flags) == None
  {
    assert Pieces("") == [""];
    assert Trimmed([""]) == Trimmed([""][1..]);
  }

  /** In particular the commas inside a quoted SELinux context survive being cut. */
  lemma NfsArgumentSurvives(flags: seq<string>)
    requires var s := CommaJoin(flags);
             s != "" && BracketFree(s) && forall i :: 0 <= i < |s| ==> !IsSpace(s[i])
    requires "" !in Pieces(CommaJoin(flags))
    ensures NfsMountArgument(flags) == Some(CommaJoin(flags))
  {
    var s := CommaJoin(flags);
    PiecesSpaceFree(s);
    NfsArgumentIsJoin(flags);
  }

  lemma {:induction false} PiecesSpaceFree(s: string)
    requires BracketFree(s) && forall i :: 0 <= i < |s| ==> !IsSpace(s[i])
    ensures forall k :: 0 <= k < |Pieces(s)| && Pieces(s)[k] != "" ==> Token(Pieces(s)[k])
    decreases |s|
  {
    var n := IndexOf(s, ',');
    NoSpaceNoBare(s[..n], false);
    if n < |s| { PiecesSpaceFree(s[n + 1..]); } else { assert s[..n] == s; }
  }

  lemma {:induction false} NoSpaceNoBare(t: string, q: bool)
    requires ',' !in t && forall i :: 0 <= i < |t| ==> !IsSpace(t[i])
    ensures NoBareSeparator(t, q)
    decreases |t|
  {
    if t != "" {
      assert t[0] in t && forall i :: 0 <= i < |t[1..]| ==> t[1..][i] == t[i + 1];
      NoSpaceNoBare(t[1..], if t[0] == '"' then !q else q);
    }
  }

  // ---------------------------------------------------------------- the mode of the mount

  /** The mode that mount options ask for: of several `ro` and `rw` the last one counts, as in
      mount(8). */
  function AskedMode(flags: seq<string>): Option<bool> {
    if flags == [] then None
    else if flags[|flags| - 1] == "ro" then Some(true)
    else if flags[|flags| - 1] == "rw" then Some(false)
    else AskedMode(flags[..|flags| - 1])
  }

  /** The flags NodePublishVolume assembles: `ro` first for a read-only request. */
  function Assembled(readonly: bool, flags: seq<string>): seq<string> {
    (if readonly then ["ro"] else []) + flags
  }

  /** Whether the export ends up mounted read-only. */
  predicate MountedReadonly(readonly: bool, flags: seq<string>) {
    AskedMode(PassedFlags(Assembled(readonly, flags))) == Some(true)
  }

  lemma NothingPassed()
    ensures PassedFlags([]) == []
  {
    assert Pieces("") == [""] && [""][1..] == [];
    assert Trimmed([""]) == [];
  }

  lemma ReadonlyAlone()
    ensures Trimmed(["ro"]) == ["ro"] && SplitItem("ro") == ["ro"]
  {
    ReadonlyToken();
    TokenAlone("ro");
    assert ["ro"][1..] == [];
  }

  lemma ReadonlyPiece(rest: seq<string>)
    ensures Trimmed(["ro"] + rest) == ["ro"] + Trimmed(rest)
    ensures SplitItems(["ro"] + rest) == ["ro"] + SplitItems(rest)
  {
    ReadonlyAlone();
    assert (["ro"] + rest)[1..] == rest;
  }

  /** A leading `ro` is passed on as it is. */
  lemma ReadonlyPasses(flags: seq<string>)
    ensures PassedFlags(["ro"] + flags) == ["ro"] + PassedFlags(flags)
  {
    var all := ["ro"] + flags;
    if flags == [] {
      assert all == ["ro"];
      PiecesOfJoin(["ro"]);
      assert Pieces("") == [""] && [""][1..] == [];
      assert Trimmed([""]) == [];
      ReadonlyPiece([]);
      assert ["ro"] + [] == ["ro"];
    } else {
      var rest := CommaJoin(flags);
      assert all[1..] == flags && CommaJoin(all) == "ro" + "," + rest;
      FirstCommaAfter("ro", rest);
      var s := "ro" + "," + rest;
      assert s[..2] == "ro" && s[3..] == rest;
      assert Pieces(s) == ["ro"] + Pieces(rest);
      ReadonlyPiece(Pieces(rest));
      ReadonlyPiece(Trimmed(Pieces(rest)));
    }
  }

  lemma {:induction false} AskedModeBehind(flags: seq<string>)
    ensures AskedMode(["ro"] + flags) == if AskedMode(flags).Some? then AskedMode(flags) else Some(true)
    decreases |flags|
  {
    var all := ["ro"] + flags;
    if flags != [] {
      assert all[..|all| - 1] == ["ro"] + flags[..|flags| - 1];
      AskedModeBehind(flags[..|flags| - 1]);
    }
  }

  /** The mount has the requested mode if and only if the flags that are passed on ask for none, or
      for that one. */
  lemma ModeAsRequested(readonly: bool, flags: seq<string>)
    ensures MountedReadonly(readonly, flags) == readonly <==>
            AskedMode(PassedFlags(flags)).None? || AskedMode(PassedFlags(flags)).value == readonly
  {
    if readonly {
      ReadonlyPasses(flags);
      AskedModeBehind(PassedFlags(flags));
    } else {
      assert [] + flags == flags;
    }
  }

  /** `ro` among the flags of a request that is not read-only. */
  lemma ReadonlyFlagMounts()
    ensures MountedReadonly(false, ["ro"])
  {
    NothingPassed();
    ReadonlyPasses([]);
    assert ["ro"] + [] == ["ro"] && [] + ["ro"] == ["ro"];
    AskedModeBehind([]);
  }

  lemma {:induction false} AskedModeFrom(flags: seq<string>)
    ensures AskedMode(flags).None? <==> "ro" !in flags && "rw" !in flags
    ensures "rw" !in flags ==> (AskedMode(flags) == Some(true) <==> "ro" in flags)
    decreases |flags|
  {
    if flags != [] {
      AskedModeFrom(flags[..|flags| - 1]);
      assert flags == flags[..|flags| - 1] + [flags[|flags| - 1]];
    }
  }

  /** Without `rw` among the flags: if and only if `ro` among them goes with a read-only request. */
  lemma ModeWithoutRw(readonly: bool, flags: seq<string>)
    requires "rw" !in PassedFlags(flags)
    ensures MountedReadonly(readonly, flags) == readonly <==> ("ro" in PassedFlags(flags) ==> readonly)
  {
    ModeAsRequested(readonly, flags);
    AskedModeFrom(PassedFlags(flags));
  }

  /** The last of `ro` and `rw` counts. */
  lemma {:induction false} AskedModeExactly(front: seq<string>, rest: seq<string>)
    requires "ro" !in rest && "rw" !in rest
    ensures AskedMode(front + ["ro"] + rest) == Some(true) && AskedMode(front + ["rw"] + rest) == Some(false)
    ensures AskedMode(rest) == None
    decreases |rest|
  {
    var ro, rw := front + ["ro"] + rest, front + ["rw"] + rest;
    if rest != [] {
      var less := rest[..|rest| - 1];
      assert ro[..|ro| - 1] == front + ["ro"] + less && rw[..|rw| - 1] == front + ["rw"] + less;
      assert ro[|ro| - 1] == rw[|rw| - 1] == rest[|rest| - 1] && rest[|rest| - 1] in rest;
      AskedModeExactly(front, less);
    }
  }

  /** Enforcing read-only on a mount that is not a bind mount works if and only if the flags do not ask
      for `ro` already, or ask for it last: `ro` before `rw` is taken for enough. */
  lemma EnforcedExactly(flags: Flags)
    ensures AskedMode(UsedFlags(flags, false, true)) == Some(true) <==>
            "ro" !in Split(flags) || AskedMode(Split(flags)) == Some(true)
  {
    var read := Split(flags);
    assert read + ["ro"] + [] == read + ["ro"];
    AskedModeExactly(read, []);
  }
}
