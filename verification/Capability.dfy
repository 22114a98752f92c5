/** The mount flags of a volume capability (vast_csi/capabilities.py) and how they travel
    between RPCs as the `mount_options` entry of a volume or publish context. */
module Capability {
  import opened Lists
  import opened Wrappers
  import opened MountFlags
  import opened Strings

  // ---------------------------------------------------------------- sorted sets of strings

  /** Python's `a < b` on strings: by code point, a proper prefix first. */
  predicate Less(a: string, b: string) {
    b != "" && (a == "" || a[0] < b[0] || (a[0] == b[0] && Less(a[1..], b[1..])))
  }

  predicate StrictlySorted(xs: seq<string>) {
    forall i, j :: 0 <= i < j < |xs| ==> Less(xs[i], xs[j])
  }

  function Insert(x: string, xs: seq<string>): seq<string> {
    if xs == [] then [x]
    else if x == xs[0] then xs
    else if Less(x, xs[0]) then [x] + xs
    else [xs[0]] + Insert(x, xs[1..])
  }

  /** `sorted({x for x in xs})`. */
  function SortedSet(xs: seq<string>): seq<string> {
    if xs == [] then [] else Insert(xs[0], SortedSet(xs[1..]))
  }

  lemma {:induction false} LessTotal(a: string, b: string)
    ensures !Less(a, a)
    ensures !(Less(a, b) && Less(b, a))
    ensures a == b || Less(a, b) || Less(b, a)
    decreases |a|
  {
    if a != "" {
      LessTotal(a[1..], a[1..]);
      if b != "" {
        LessTotal(a[1..], b[1..]);
        assert a == [a[0]] + a[1..] && b == [b[0]] + b[1..];
      }
    }
  }

  lemma {:induction false} LessTransitive(a: string, b: string, c: string)
    requires Less(a, b) && Less(b, c)
    ensures Less(a, c)
    decreases |a|
  {
    if a != "" && a[0] == b[0] == c[0] {
      LessTransitive(a[1..], b[1..], c[1..]);
    }
  }

  lemma ConsSorted(x: string, ys: seq<string>)
    requires StrictlySorted(ys) && forall y :: y in ys ==> Less(x, y)
    ensures StrictlySorted([x] + ys)
    ensures Elements([x] + ys) == {x} + Elements(ys)
  {
  }

  lemma {:induction false} InsertSorted(x: string, xs: seq<string>)
    requires StrictlySorted(xs)
    ensures StrictlySorted(Insert(x, xs))
    ensures Elements(Insert(x, xs)) == {x} + Elements(xs)
    decreases |xs|
  {
    if xs == [] {
      ConsSorted(x, xs);
    } else if x == xs[0] {
    } else if Less(x, xs[0]) {
      forall y | y in xs ensures Less(x, y) {
        var j :| 0 <= j < |xs| && xs[j] == y;
        if j > 0 { LessTransitive(x, xs[0], y); }
      }
      ConsSorted(x, xs);
    } else {
      var tail := xs[1..];
      assert xs == [xs[0]] + tail;
      assert StrictlySorted(tail) by {
        assert forall j :: 0 <= j < |tail| ==> tail[j] == xs[j + 1];
      }
      InsertSorted(x, tail);
      LessTotal(x, xs[0]);
      forall y | y in Insert(x, tail) ensures Less(xs[0], y) {
        assert y in Elements(Insert(x, tail));
      }
      ConsSorted(xs[0], Insert(x, tail));
    }
  }

  /** SortedSet is sorted, has no duplicate and keeps exactly the elements. */
  lemma {:induction false} SortedSetCorrect(xs: seq<string>)
    ensures StrictlySorted(SortedSet(xs))
    ensures Elements(SortedSet(xs)) == Elements(xs)
    decreases |xs|
  {
    if xs != [] {
      SortedSetCorrect(xs[1..]);
      InsertSorted(xs[0], SortedSet(xs[1..]));
      assert xs == [xs[0]] + xs[1..];
    }
  }

  lemma NoElements(xs: seq<string>)
    ensures xs == [] || xs[0] in Elements(xs)
  {
  }

  /** A set has one sorted listing. */
  lemma {:induction false} SortedUnique(xs: seq<string>, ys: seq<string>)
    requires StrictlySorted(xs) && StrictlySorted(ys) && Elements(xs) == Elements(ys)
    ensures xs == ys
    decreases |xs|
  {
    if xs == [] {
      NoElements(ys);
    } else {
      assert xs[0] in Elements(ys);
      var x, y := xs[0], ys[0];
      assert x == y by {
        assert y in Elements(xs);
        if x != y { LessTotal(x, y); }
      }
      var xt, yt := xs[1..], ys[1..];
      assert xs == [x] + xt && ys == [y] + yt;
      assert forall j :: 0 <= j < |xt| ==> xt[j] == xs[j + 1];
      assert forall j :: 0 <= j < |yt| ==> yt[j] == ys[j + 1];
      LessTotal(x, x);
      assert x !in xt && x !in yt;
      assert Elements(xt) == Elements(xs) - {x};
      assert Elements(yt) == Elements(ys) - {x};
      SortedUnique(xt, yt);
    }
  }

  // ---------------------------------------------------------------- capabilities

  /** `context.get("mount_options", fallback.get("mount_options", ""))`. */
  function ContextOptions(volumeContext: Option<string>, publishContext: Option<string>): string {
    if volumeContext.Some? then volumeContext.value
    else if publishContext.Some? then publishContext.value
    else ""
  }

  /** `{op.strip() for op in flags if op}` before sorting. */
  function Trim(flags: seq<string>): seq<string> {
    if flags == [] then []
    else (if flags[0] == "" then [] else [Strip(flags[0])]) + Trim(flags[1..])
  }

  /** `Capability.mount_flags`: the flags of the context and of the request, as a sorted set. */
  function CapabilityFlags(
    requested: seq<string>, volumeContext: Option<string>, publishContext: Option<string>
  ): seq<string> {
    var context := Split(Text(ContextOptions(volumeContext, publishContext)));
    SortedSet(Trim(context + Split(Listed(requested))))
  }

  datatype AccessMode =
    | SingleNodeWriter | SingleNodeReaderOnly | SingleNodeSingleWriter
    | MultiNodeReaderOnly | MultiNodeSingleWriter | MultiNodeMultiWriter

  /** `Capability.is_readonly`. */
  predicate IsReadonly(mode: AccessMode, flags: seq<string>) {
    mode.SingleNodeReaderOnly? || mode.MultiNodeReaderOnly? || "ro" in flags
  }

  lemma TokenStrip(t: string)
    requires Token(t)
    ensures Strip(t) == t
  {
    assert LStrip(t) == t && RStrip(t) == t;
  }

  lemma {:induction false} TrimTokens(ts: seq<string>)
    requires AllTokens(ts)
    ensures Trim(ts) == ts
    decreases |ts|
  {
    if ts != [] {
      TokenStrip(ts[0]);
      TrimTokens(ts[1..]);
    }
  }

  /** The stored flags are sorted, without duplicates, all tokens, and are exactly the flags
      read from the context and from the request. */
  lemma CapabilityFlagsCorrect(requested: seq<string>, volumeContext: Option<string>, publishContext: Option<string>)
    ensures var m := CapabilityFlags(requested, volumeContext, publishContext);
            && StrictlySorted(m) && AllTokens(m)
            && Elements(m) == Elements(Split(Text(ContextOptions(volumeContext, publishContext))))
                              + Elements(Split(Listed(requested)))
  {
    var context := Split(Text(ContextOptions(volumeContext, publishContext)));
    var own := Split(Listed(requested));
    SplitItemsTokens(Items(Text(ContextOptions(volumeContext, publishContext))));
    SplitItemsTokens(requested);
    var all := context + own;
    TrimTokens(all);
    SortedSetCorrect(all);
    assert Elements(all) == Elements(context) + Elements(own);
    var m := SortedSet(all);
    forall i | 0 <= i < |m| ensures Token(m[i]) {
      assert m[i] in Elements(m);
      var k :| 0 <= k < |all| && all[k] == m[i];
    }
  }

  // ---------------------------------------------------------------- hops between RPCs

  /** `mount_flags_str`, the text written into the next context. */
  function OptionsText(flags: seq<string>): string {
    CommaJoin(flags)
  }

  /** The written text reads back as the same list exactly when no flag but the last leaves a
      quote open. */
  lemma OptionsTextReadsBack(requested: seq<string>, volumeContext: Option<string>, publishContext: Option<string>)
    ensures var m := CapabilityFlags(requested, volumeContext, publishContext);
            Split(Text(OptionsText(m))) == m <==> AllButLastBalanced(m)
  {
    var m := CapabilityFlags(requested, volumeContext, publishContext);
    CapabilityFlagsCorrect(requested, volumeContext, publishContext);
    SplitText(OptionsText(m));
    CommaJoinRoundTrip(m);
  }

  /** A flag list that the next RPC reproduces, whichever of those flags its own capability
      repeats. The read-only decision is the same there. */
  lemma HopKeepsFlags(m: seq<string>, requested: seq<string>, publishContext: Option<string>, mode: AccessMode)
    requires StrictlySorted(m) && AllTokens(m) && AllButLastBalanced(m)
    requires Elements(Split(Listed(requested))) <= Elements(m)
    ensures CapabilityFlags(requested, Some(OptionsText(m)), publishContext) == m
    ensures IsReadonly(mode, CapabilityFlags(requested, Some(OptionsText(m)), publishContext)) == IsReadonly(mode, m)
  {
    SplitText(OptionsText(m));
    CommaJoinRoundTrip(m);
    CapabilityFlagsCorrect(requested, Some(OptionsText(m)), publishContext);
    SortedUnique(CapabilityFlags(requested, Some(OptionsText(m)), publishContext), m);
  }

  /** The flags seen by each of a sequence of RPCs; entry k is the capability list RPC k gets,
      and each RPC finds its predecessor's text in the volume context. */
  function AfterHops(first: seq<string>, requests: seq<seq<string>>): seq<string> {
    if requests == [] then first
    else CapabilityFlags(requests[|requests| - 1],
                         Some(OptionsText(AfterHops(first, requests[..|requests| - 1]))), None)
  }

  /** Over any number of RPCs that repeat some or all of the capability, the flags are those
      of the first RPC, if no flag but the last leaves a quote open. */
  lemma {:induction false} HopsKeepFlags(
    requested: seq<string>, volumeContext: Option<string>, publishContext: Option<string>, requests: seq<seq<string>>)
    requires AllButLastBalanced(CapabilityFlags(requested, volumeContext, publishContext))
    requires forall k :: 0 <= k < |requests| ==>
               Elements(Split(Listed(requests[k])))
               <= Elements(CapabilityFlags(requested, volumeContext, publishContext))
    ensures AfterHops(CapabilityFlags(requested, volumeContext, publishContext), requests)
            == CapabilityFlags(requested, volumeContext, publishContext)
    decreases |requests|
  {
    if requests != [] {
      var m := CapabilityFlags(requested, volumeContext, publishContext);
      HopsKeepFlags(requested, volumeContext, publishContext, requests[..|requests| - 1]);
      CapabilityFlagsCorrect(requested, volumeContext, publishContext);
      HopKeepsFlags(m, requests[|requests| - 1], None, SingleNodeWriter);
    }
  }

  lemma TwoRequested(a: string, b: string)
    requires Token(a) && Token(b) && Less(a, b)
    ensures CapabilityFlags([a, b], None, None) == [a, b]
  {
    assert Clean([a]) && Clean([b]);
    CommaJoinRoundTrip([a]);
    CommaJoinRoundTrip([b]);
    assert [a, b][1..] == [b];
    assert SplitItems([b]) == SplitItem(b) + SplitItems([b][1..]);
    assert Split(Listed([a, b])) == [a, b];
    SplitText("");
    CapabilityFlagsCorrect([a, b], None, None);
    SortedUnique(CapabilityFlags([a, b], None, None), [a, b]);
  }

  lemma OneInContext(t: string)
    requires Token(t)
    ensures CapabilityFlags([], Some(t), None) == [t]
  {
    assert Clean([t]);
    CommaJoinRoundTrip([t]);
    SplitText(t);
    CapabilityFlagsCorrect([], Some(t), None);
    SortedUnique(CapabilityFlags([], Some(t), None), [t]);
  }

  lemma OpenPair()
    ensures Token("\"a") && Token("b\"") && Less("\"a", "b\"") && Token("\"a,b\"")
  {
    assert "\"a"[1..] == "a" && "a"[1..] == "";
    assert "b\""[1..] == "\"" && "\""[1..] == "";
    assert "\"a,b\""[1..] == "a,b\"" && "a,b\""[1..] == ",b\"" && ",b\""[1..] == "b\"";
    assert NoBareSeparator("b\"", true) && NoBareSeparator(",b\"", true) && NoBareSeparator("a,b\"", true);
  }

  /** Two requested flags that each leave a quote open become one flag on the next RPC. */
  lemma HopMergesOpenQuotes()
    ensures CapabilityFlags(["\"a", "b\""], None, None) == ["\"a", "b\""]
    ensures CapabilityFlags([], Some(OptionsText(["\"a", "b\""])), None) == ["\"a,b\""]
  {
    OpenPair();
    TwoRequested("\"a", "b\"");
    OneInContext("\"a,b\"");
    var two := ["\"a", "b\""];
    assert two[1..] == ["b\""] && OptionsText(two) == two[0] + "," + CommaJoin(two[1..]);
    assert OptionsText(two) == "\"a,b\"";
  }

  lemma QuoteTokens()
    ensures Token("\"") && Token("\",\"") && Less("\"", "\",\"")
    ensures Balanced("\",\"") && !Balanced("\"")
  {
    assert "\""[1..] == "" && "\",\""[1..] == ",\"" && ",\""[1..] == "\"";
    assert NoBareSeparator("\"", true) && NoBareSeparator(",\"", true);
    assert EndQuoted("\"", true) == EndQuoted("", false) && EndQuoted(",\"", true) == EndQuoted("\"", true);
  }

  /** The converse of HopKeepsFlags fails: these two flags run together and are cut elsewhere, into
      the same two flags. */
  lemma UnbalancedFlagsCanSurvive()
    ensures var m := ["\"", "\",\""];
            && StrictlySorted(m) && AllTokens(m) && !AllButLastBalanced(m)
            && CapabilityFlags([], Some(OptionsText(m)), None) == m
  {
    QuoteTokens();
    var a, b := "\"", "\",\"";
    var m, cut := [a, b], [b, a];
    assert !AllButLastBalanced(m) by { assert m[0] == a; }
    assert m[1..] == [b] && cut[1..] == [a];
    assert OptionsText(m) == a + "," + b && CommaJoin(cut) == b + "," + a;
    assert OptionsText(m) == CommaJoin(cut);
    assert Clean(cut);
    CommaJoinRoundTrip(cut);
    SplitText(OptionsText(m));
    CapabilityFlagsCorrect([], Some(OptionsText(m)), None);
    assert Elements(cut) == {a, b} == Elements(m);
    SortedUnique(CapabilityFlags([], Some(OptionsText(m)), None), m);
  }

  /** Where the flags come from: the request, and the volume context if it has options, else the
      publish context. The volume is read-only exactly for the two read-only access modes, or with
      `ro` among those flags. */
  lemma ReadonlyExactly(
    requested: seq<string>, volumeContext: Option<string>, publishContext: Option<string>, mode: AccessMode)
    ensures IsReadonly(mode, CapabilityFlags(requested, volumeContext, publishContext)) <==>
            || mode == SingleNodeReaderOnly || mode == MultiNodeReaderOnly
            || "ro" in Split(Listed(requested))
            || (volumeContext.Some? && "ro" in Split(Text(volumeContext.value)))
            || (volumeContext.None? && publishContext.Some? && "ro" in Split(Text(publishContext.value)))
  {
    var m := CapabilityFlags(requested, volumeContext, publishContext);
    CapabilityFlagsCorrect(requested, volumeContext, publishContext);
    SplitText("");
    assert "ro" in m <==> "ro" in Elements(m);
  }

  /** The order of the flags, by code point: the shorter of two that begin alike, else the one that is
      smaller where they first differ. */
  lemma LessExactly(common: string, a: string, b: string)
    ensures Less(common, common + a) <==> a != ""
    ensures a != "" && b != "" && a[0] != b[0] ==> (Less(common + a, common + b) <==> a[0] < b[0])
  {
    LessAfter(common, "", a);
    LessAfter(common, a, b);
    assert common + "" == common;
  }

  lemma {:induction false} LessAfter(common: string, a: string, b: string)
    ensures Less(common + a, common + b) <==> Less(a, b)
    decreases |common|
  {
    if common == "" {
      assert common + a == a && common + b == b;
    } else {
      assert (common + a)[1..] == common[1..] + a && (common + b)[1..] == common[1..] + b;
      LessAfter(common[1..], a, b);
    }
  }
}
