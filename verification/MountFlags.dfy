/** The mount-flag grammar of vast_csi/filesystem_utils.py: the quote-aware tokenizer
    `split_mount_flags`, the printer `join_mount_flags`, and the laws that connect them. */
module MountFlags {
  import opened Strings

  // ---------------------------------------------------------------- characters

  predicate IsBracket(c: char) {
    c == '[' || c == ']'
  }

  predicate Separates(c: char) {
    c == ',' || IsSpace(c)
  }

  /** `re.sub(r"[\[\]]", "", s)`. */
  function DropBrackets(s: string): string {
    if s == "" then ""
    else if IsBracket(s[0]) then DropBrackets(s[1..])
    else [s[0]] + DropBrackets(s[1..])
  }

  // ---------------------------------------------------------------- tokenizer

  /** The two `if buf:` blocks: the token a non-empty buffer contributes. */
  function Flush(buf: string): seq<string> {
    if buf == "" || Strip(buf) == "" then [] else [Strip(buf)]
  }

  /** What the character loop still emits from `text`, given its buffer and quote state. */
  function Lex(text: string, buf: string, inQuotes: bool): seq<string>
    decreases |text|
  {
    if text == "" then Flush(buf)
    else
      var c := text[0];
      if c == '"' then Lex(text[1..], buf + [c], !inQuotes)
      else if !inQuotes && Separates(c) then Flush(buf) + Lex(text[1..], "", inQuotes)
      else Lex(text[1..], buf + [c], inQuotes)
  }

  function SplitItem(item: string): seq<string> {
    Lex(DropBrackets(item), "", false)
  }

  function SplitItems(items: seq<string>): seq<string> {
    if items == [] then [] else SplitItem(items[0]) + SplitItems(items[1..])
  }

  /** The three shapes `split_mount_flags` accepts. */
  datatype Flags = Absent | Text(text: string) | Listed(items: seq<string>)

  function Items(flags: Flags): seq<string> {
    match flags
    case Absent => []
    case Text(s) => [s]
    case Listed(items) => items
  }

  function Split(flags: Flags): seq<string> {
    SplitItems(Items(flags))
  }

  method SplitMountFlags(flags: Flags) returns (result: seq<string>)
    ensures result == Split(flags)
  {
    var items := Items(flags);
    result := [];
    for i := 0 to |items|
      invariant result + SplitItems(items[i..]) == Split(flags)
    {
      if items[i] != "" {
        var text := RemoveBrackets(items[i]);
        var tokens := SplitCharacters(text);
        result := result + tokens;
      }
    }
  }

  /** The character loop. */
  method SplitCharacters(text: string) returns (tokens: seq<string>)
    ensures tokens == Lex(text, "", false)
  {
    tokens := [];
    var buf, inQuotes := "", false;
    for k := 0 to |text|
      invariant tokens + Lex(text[k..], buf, inQuotes) == Lex(text, "", false)
    {
      var c := text[k];
      ghost var rest := text[k..];
      assert rest[0] == c && rest[1..] == text[k + 1..];
      if c == '"' {
        inQuotes := !inQuotes;
        buf := buf + [c];
      } else if !inQuotes && Separates(c) {
        ghost var before := tokens;
        ghost var flushed := buf;
        if buf != "" {
          var token := Strip(buf);
          if token != "" {
            tokens := tokens + [token];
          }
          buf := "";
        }
        assert tokens == before + Flush(flushed);
        assert before + (Flush(flushed) + Lex(rest[1..], "", false)) == tokens + Lex(rest[1..], "", false);
      } else {
        buf := buf + [c];
      }
    }
    assert text[|text|..] == "";
    if buf != "" {
      var token := Strip(buf);
      if token != "" {
        tokens := tokens + [token];
      }
    }
  }

  method RemoveBrackets(s: string) returns (r: string)
    ensures r == DropBrackets(s)
  {
    r := "";
    for i := 0 to |s|
      invariant r + DropBrackets(s[i..]) == DropBrackets(s)
    {
      if !IsBracket(s[i]) {
        r := r + [s[i]];
      }
    }
  }

  // ---------------------------------------------------------------- printer

  /** Python's `",".join(ts)`. */
  function CommaJoin(ts: seq<string>): string {
    if ts == [] then ""
    else if |ts| == 1 then ts[0]
    else ts[0] + "," + CommaJoin(ts[1..])
  }

  function Quoted(head: string, value: string): string {
    head + "\"" + value + "\""
  }

  /** One flag as `join_mount_flags` prints it. */
  function Formatted(flag: string): string {
    if ',' in flag && '=' in flag && '"' !in flag then
      var n := IndexOf(flag, '=');
      assert n < |flag|;
      Quoted(flag[..n] + "=", flag[n + 1..])
    else flag
  }

  function FormattedAll(flags: seq<string>): seq<string> {
    seq(|flags|, i requires 0 <= i < |flags| => Formatted(flags[i]))
  }

  function Join(flags: seq<string>): string {
    CommaJoin(FormattedAll(flags))
  }

  method JoinMountFlags(flags: seq<string>) returns (s: string)
    ensures s == Join(flags)
  {
    var formatted: seq<string> := [];
    for i := 0 to |flags|
      invariant formatted == FormattedAll(flags)[..i]
    {
      formatted := formatted + [Formatted(flags[i])];
    }
    assert formatted == FormattedAll(flags);
    s := CommaJoin(formatted);
  }

  // ---------------------------------------------------------------- what a token is

  /** Quote state after reading `t` from quote state `q`. */
  function EndQuoted(t: string, q: bool): bool {
    if t == "" then q else EndQuoted(t[1..], if t[0] == '"' then !q else q)
  }

  predicate Balanced(t: string) {
    !EndQuoted(t, false)
  }

  /** No separator outside quotes, reading from quote state `q`. */
  predicate NoBareSeparator(t: string, q: bool) {
    t == "" ||
    if t[0] == '"' then NoBareSeparator(t[1..], !q)
    else (q || !Separates(t[0])) && NoBareSeparator(t[1..], q)
  }

  predicate BracketFree(t: string) {
    forall i :: 0 <= i < |t| ==> !IsBracket(t[i])
  }

  predicate Token(t: string) {
    t != "" && BracketFree(t) && NoBareSeparator(t, false) && !IsSpace(t[|t| - 1])
  }

  predicate AllTokens(ts: seq<string>) {
    forall i :: 0 <= i < |ts| ==> Token(ts[i])
  }

  predicate AllButLastBalanced(ts: seq<string>) {
    forall i :: 0 <= i < |ts| - 1 ==> Balanced(ts[i])
  }

  /** The lists a single string can be read as. */
  predicate Clean(ts: seq<string>) {
    AllTokens(ts) && AllButLastBalanced(ts)
  }

  // ---------------------------------------------------------------- scanning lemmas

  lemma {:induction false} EndQuotedConcat(a: string, b: string, q: bool)
    ensures EndQuoted(a + b, q) == EndQuoted(b, EndQuoted(a, q))
    decreases |a|
  {
    if a == "" {
      assert a + b == b;
    } else {
      assert (a + b)[1..] == a[1..] + b;
      EndQuotedConcat(a[1..], b, if a[0] == '"' then !q else q);
    }
  }

  lemma {:induction false} NoBareConcat(a: string, b: string, q: bool)
    ensures NoBareSeparator(a + b, q) <==> NoBareSeparator(a, q) && NoBareSeparator(b, EndQuoted(a, q))
    decreases |a|
  {
    if a == "" {
      assert a + b == b;
    } else {
      assert (a + b)[1..] == a[1..] + b;
      NoBareConcat(a[1..], b, if a[0] == '"' then !q else q);
    }
  }

  /** Reading a separator-free stretch only grows the buffer. */
  lemma {:induction false} LexStretch(t: string, rest: string, buf: string, q: bool)
    requires NoBareSeparator(t, q)
    ensures Lex(t + rest, buf, q) == Lex(rest, buf + t, EndQuoted(t, q))
    decreases |t|
  {
    if t == "" {
      assert t + rest == rest && buf + t == buf;
    } else {
      assert (t + rest)[1..] == t[1..] + rest;
      assert buf + t == buf + [t[0]] + t[1..];
      LexStretch(t[1..], rest, buf + [t[0]], if t[0] == '"' then !q else q);
    }
  }

  /** A separator-free string that closes its quotes has no space at its end, whatever
      quote state it is read from once the state is unquoted at the end. */
  lemma {:induction false} ClosedEndsSolid(t: string, q: bool)
    requires t != "" && NoBareSeparator(t, q) && !EndQuoted(t, q)
    ensures !IsSpace(t[|t| - 1])
    decreases |t|
  {
    if |t| > 1 {
      ClosedEndsSolid(t[1..], if t[0] == '"' then !q else q);
    } else {
      assert t[1..] == "";
    }
  }

  lemma {:induction false} RStripPrefix(s: string)
    ensures RStrip(s) <= s
    ensures RStrip(s) != "" ==> !IsSpace(RStrip(s)[|RStrip(s)| - 1])
    ensures s != "" && !IsSpace(s[0]) ==> RStrip(s) != ""
    decreases |s|
  {
    if s != "" && IsSpace(s[|s| - 1]) {
      RStripPrefix(s[..|s| - 1]);
    }
  }

  /** The buffer the loop holds yields exactly one token, and only trailing space inside an
      unclosed quote is lost. */
  lemma FlushBuffer(buf: string)
    requires buf != "" && BracketFree(buf) && NoBareSeparator(buf, false)
    ensures Flush(buf) == [RStrip(buf)] && Token(RStrip(buf))
    ensures Balanced(buf) ==> RStrip(buf) == buf
  {
    assert LStrip(buf) == buf;
    RStripPrefix(buf);
    var r := RStrip(buf);
    assert buf == r + buf[|r|..];
    NoBareConcat(r, buf[|r|..], false);
    if Balanced(buf) {
      ClosedEndsSolid(buf, false);
    }
  }

  lemma {:induction false} DropBracketsFree(s: string)
    ensures BracketFree(DropBrackets(s))
    ensures BracketFree(s) ==> DropBrackets(s) == s
    decreases |s|
  {
    if s != "" {
      DropBracketsFree(s[1..]);
      assert s == [s[0]] + s[1..];
    }
  }

  lemma NoBareGrow(buf: string, c: char, q: bool)
    requires NoBareSeparator(buf, false) && EndQuoted(buf, false) == q
    requires c == '"' || q || !Separates(c)
    ensures NoBareSeparator(buf + [c], false)
    ensures EndQuoted(buf + [c], false) == if c == '"' then !q else q
  {
    NoBareConcat(buf, [c], false);
    EndQuotedConcat(buf, [c], false);
    assert [c][1..] == "";
  }

  /** Everything the tokenizer emits is a token, and only the last can leave a quote open. */
  lemma {:induction false} LexClean(text: string, buf: string, q: bool)
    requires BracketFree(text) && BracketFree(buf)
    requires NoBareSeparator(buf, false) && EndQuoted(buf, false) == q
    ensures Clean(Lex(text, buf, q))
    decreases |text|
  {
    if text == "" {
      if buf != "" { FlushBuffer(buf); }
    } else {
      var c := text[0];
      if c == '"' {
        NoBareGrow(buf, c, q);
        LexClean(text[1..], buf + [c], !q);
      } else if !q && Separates(c) {
        if buf != "" { FlushBuffer(buf); }
        LexClean(text[1..], "", q);
      } else {
        NoBareGrow(buf, c, q);
        LexClean(text[1..], buf + [c], q);
      }
    }
  }

  lemma SplitItemClean(item: string)
    ensures Clean(SplitItem(item))
  {
    DropBracketsFree(item);
    LexClean(DropBrackets(item), "", false);
  }

  lemma {:induction false} SplitItemsTokens(items: seq<string>)
    ensures AllTokens(SplitItems(items))
    decreases |items|
  {
    if items != [] {
      SplitItemClean(items[0]);
      SplitItemsTokens(items[1..]);
    }
  }

  // ---------------------------------------------------------------- the round trip

  lemma {:induction false} LexCommaJoin(ts: seq<string>)
    requires Clean(ts)
    ensures Lex(CommaJoin(ts), "", false) == ts
    decreases |ts|
  {
    if |ts| >= 1 {
      var t, tail := ts[0], ts[1..];
      FlushBuffer(t);
      RStripPrefix(t);
      assert RStrip(t) == t;
      assert "" + t == t;
      if |ts| == 1 {
        assert t + "" == t;
        LexStretch(t, "", "", false);
      } else {
        var rest := "," + CommaJoin(tail);
        assert CommaJoin(ts) == t + rest;
        LexStretch(t, rest, "", false);
        assert Balanced(t);
        assert rest[1..] == CommaJoin(tail);
        assert forall i :: 0 <= i < |tail| ==> tail[i] == ts[i + 1];
        LexCommaJoin(tail);
      }
    }
  }

  lemma {:induction false} CommaJoinBracketFree(ts: seq<string>)
    requires AllTokens(ts)
    ensures BracketFree(CommaJoin(ts))
    decreases |ts|
  {
    if |ts| > 1 {
      CommaJoinBracketFree(ts[1..]);
    }
  }

  /** A list printed with commas reads back as itself exactly when each entry is a token and
      every entry but the last closes its quotes. */
  lemma CommaJoinRoundTrip(ts: seq<string>)
    ensures SplitItem(CommaJoin(ts)) == ts <==> Clean(ts)
  {
    SplitItemClean(CommaJoin(ts));
    if Clean(ts) {
      CommaJoinBracketFree(ts);
      DropBracketsFree(CommaJoin(ts));
      LexCommaJoin(ts);
    }
  }

  lemma {:induction false} NoQuoteNoComma(t: string)
    requires NoBareSeparator(t, false) && '"' !in t
    ensures ',' !in t
    decreases |t|
  {
    if t != "" {
      NoQuoteNoComma(t[1..]);
      assert t == [t[0]] + t[1..];
    }
  }

  /** The printer leaves the tokenizer's output alone. */
  lemma FormattedTokens(ts: seq<string>)
    requires AllTokens(ts)
    ensures FormattedAll(ts) == ts
  {
    forall i | 0 <= i < |ts| ensures Formatted(ts[i]) == ts[i] {
      assert Token(ts[i]);
      if '"' !in ts[i] { NoQuoteNoComma(ts[i]); }
    }
  }

  lemma SplitText(s: string)
    ensures Split(Text(s)) == SplitItem(s)
  {
    assert SplitItems([s][1..]) == [];
  }

  /** Re-reading what was printed from a read list gives the same list, exactly when no flag
      but the last leaves a quote open. */
  lemma SplitJoinSplit(flags: Flags)
    ensures Split(Text(Join(Split(flags)))) == Split(flags) <==> AllButLastBalanced(Split(flags))
  {
    var ts := Split(flags);
    SplitItemsTokens(Items(flags));
    FormattedTokens(ts);
    SplitText(Join(ts));
    CommaJoinRoundTrip(ts);
  }

  /** For a single string the condition always holds. */
  lemma SplitJoinSplitText(s: string)
    ensures Split(Text(Join(Split(Text(s))))) == Split(Text(s))
  {
    SplitText(s);
    SplitItemClean(s);
    SplitJoinSplit(Text(s));
  }

  /** Two list items that each leave a quote open are read back as one flag. */
  lemma SplitJoinSplitFailsOnOpenQuotes()
    ensures Split(Text(Join(Split(Listed(["\"a", "b\""]))))) != Split(Listed(["\"a", "b\""]))
  {
    var a, b := "\"a", "b\"";
    assert a[1..] == "a" && b[1..] == "\"" && "a"[1..] == "" && "\""[1..] == "";
    assert EndQuoted(a, false) == EndQuoted("a", true) == EndQuoted("", true);
    assert EndQuoted(b, false) == EndQuoted("\"", false) == EndQuoted("", true);
    assert Token(a) && Token(b);
    assert [a, b][1..] == [b];
    var ts := [a, b];
    assert Clean([a]) && Clean([b]) by {
      assert [a][0] == a && [b][0] == b;
    }
    CommaJoinRoundTrip([a]);
    CommaJoinRoundTrip([b]);
    assert SplitItem(a) == SplitItem(CommaJoin([a])) && SplitItem(b) == SplitItem(CommaJoin([b]));
    assert SplitItems(ts) == SplitItem(a) + SplitItems([b]);
    assert SplitItems([b]) == SplitItem(b) + SplitItems([b][1..]);
    assert Split(Listed(ts)) == ts;
    assert !AllButLastBalanced(ts) by { assert ts[0] == a; }
    SplitJoinSplit(Listed(ts));
  }

  // ---------------------------------------------------------------- printing first

  /** A flag a caller may hand to the printer: no space or bracket, quotes closed, and an
      unquoted comma only in the value of a quote-free `key=value`. */
  predicate Printable(f: string) {
    && f != "" && BracketFree(f) && Balanced(f)
    && (forall i :: 0 <= i < |f| ==> !IsSpace(f[i]))
    && if '"' in f then NoBareSeparator(f, false) else ',' !in f[..IndexOf(f, '=')]
  }

  lemma {:induction false} PlainStretch(t: string, q: bool)
    requires '"' !in t
    requires q || forall i :: 0 <= i < |t| ==> !Separates(t[i])
    ensures NoBareSeparator(t, q) && EndQuoted(t, q) == q
    decreases |t|
  {
    if t != "" {
      assert t == [t[0]] + t[1..];
      PlainStretch(t[1..], q);
    }
  }

  lemma QuotedToken(head: string, value: string)
    requires '"' !in head && '"' !in value && BracketFree(head) && BracketFree(value)
    requires forall i :: 0 <= i < |head| ==> !Separates(head[i])
    ensures Token(Quoted(head, value)) && Balanced(Quoted(head, value))
  {
    PlainStretch(head, false);
    PlainStretch(value, true);
    NoBareGrow(head, '"', false);
    var open := head + ['"'];
    NoBareConcat(open, value, false);
    EndQuotedConcat(open, value, false);
    NoBareGrow(open + value, '"', true);
  }

  lemma NoCommaWithoutEq(f: string)
    requires ',' !in f[..IndexOf(f, '=')]
    ensures ',' !in f || '=' in f
  {
    var n := IndexOf(f, '=');
    if n < |f| { assert f[n] == '='; } else { assert f[..n] == f; }
  }

  lemma KeyPart(f: string, n: nat)
    requires n < |f| && BracketFree(f) && '"' !in f && ',' !in f[..n]
    requires forall i :: 0 <= i < |f| ==> !IsSpace(f[i])
    ensures var head := f[..n] + "=";
            '"' !in head && BracketFree(head) && forall i :: 0 <= i < |head| ==> !Separates(head[i])
  {
    var head := f[..n] + "=";
    forall i | 0 <= i < |head| ensures !Separates(head[i]) {
      if i < n { assert head[i] == f[..n][i] == f[i]; }
    }
  }

  lemma KeyValueToken(f: string, n: nat)
    requires n < |f| && BracketFree(f) && '"' !in f && ',' !in f[..n]
    requires forall i :: 0 <= i < |f| ==> !IsSpace(f[i])
    ensures Token(Quoted(f[..n] + "=", f[n + 1..])) && Balanced(Quoted(f[..n] + "=", f[n + 1..]))
  {
    KeyPart(f, n);
    QuotedToken(f[..n] + "=", f[n + 1..]);
  }

  lemma FormattedKeyValue(f: string)
    requires BracketFree(f) && '"' !in f && ',' in f && '=' in f && ',' !in f[..IndexOf(f, '=')]
    requires forall i :: 0 <= i < |f| ==> !IsSpace(f[i])
    ensures Token(Formatted(f)) && Balanced(Formatted(f))
  {
    assert IndexOf(f, '=') < |f|;
    KeyValueToken(f, IndexOf(f, '='));
  }

  lemma FormattedPrintable(f: string)
    requires Printable(f)
    ensures Token(Formatted(f)) && Balanced(Formatted(f))
  {
    if '"' in f {
      ClosedEndsSolid(f, false);
    } else {
      NoCommaWithoutEq(f);
      if ',' in f {
        FormattedKeyValue(f);
      } else {
        PlainStretch(f, false);
      }
    }
  }

  /** Printing a list of such flags and reading it back gives each flag in its printed form,
      one for one. */
  lemma SplitOfJoin(flags: seq<string>)
    requires forall i :: 0 <= i < |flags| ==> Printable(flags[i])
    ensures Split(Text(Join(flags))) == FormattedAll(flags)
  {
    var ts := FormattedAll(flags);
    forall i | 0 <= i < |ts| ensures Token(ts[i]) && Balanced(ts[i]) {
      assert Printable(flags[i]);
      FormattedPrintable(flags[i]);
    }
    SplitText(Join(flags));
    CommaJoinRoundTrip(ts);
  }

  // ---------------------------------------------------------------- nothing is lost

  /** The text without its unquoted separators. */
  function Kept(text: string, q: bool): string {
    if text == "" then ""
    else if text[0] == '"' then "\"" + Kept(text[1..], !q)
    else if !q && Separates(text[0]) then Kept(text[1..], q)
    else [text[0]] + Kept(text[1..], q)
  }

  function Flat(ts: seq<string>): string {
    if ts == [] then "" else ts[0] + Flat(ts[1..])
  }

  lemma {:induction false} RStripAppend(a: string, b: string)
    requires b != "" && !IsSpace(b[0])
    ensures RStrip(a + b) == a + RStrip(b)
    decreases |b|
  {
    var s := a + b;
    if IsSpace(b[|b| - 1]) {
      assert s[..|s| - 1] == a + b[..|b| - 1];
      RStripAppend(a, b[..|b| - 1]);
    }
  }

  lemma FlushKeeps(buf: string)
    requires BracketFree(buf) && NoBareSeparator(buf, false)
    ensures Flat(Flush(buf)) == RStrip(buf)
  {
    if buf != "" {
      FlushBuffer(buf);
      assert Flat([RStrip(buf)]) == RStrip(buf) + "";
    }
  }

  /** A closed token, then what is kept of the rest. */
  lemma SeparatorKeeps(buf: string, rest: string, ts: seq<string>)
    requires BracketFree(buf) && NoBareSeparator(buf, false) && Balanced(buf)
    requires Flat(ts) == RStrip(rest) && (rest != "" ==> !IsSpace(rest[0]))
    ensures Flat(Flush(buf) + ts) == RStrip(buf + rest)
  {
    if buf == "" {
      assert Flush(buf) + ts == ts && buf + rest == rest;
    } else {
      FlushBuffer(buf);
      assert ([buf] + ts)[1..] == ts;
      if rest == "" {
        assert buf + rest == buf && buf + "" == buf;
      } else {
        RStripAppend(buf, rest);
      }
    }
  }

  lemma KeptGrow(text: string, buf: string, q: bool, next: bool)
    requires text != "" && next == (if text[0] == '"' then !q else q)
    requires text[0] == '"' || q || !Separates(text[0])
    ensures buf + [text[0]] + Kept(text[1..], next) == buf + Kept(text, q)
  {
    assert Kept(text, q) == [text[0]] + Kept(text[1..], next);
  }

  lemma LexGrow(text: string, buf: string, q: bool, next: bool)
    requires text != "" && next == (if text[0] == '"' then !q else q)
    requires text[0] == '"' || q || !Separates(text[0])
    ensures Lex(text, buf, q) == Lex(text[1..], buf + [text[0]], next)
  {
  }

  lemma {:induction false} LexKeeps(text: string, buf: string, q: bool)
    requires BracketFree(text) && BracketFree(buf)
    requires NoBareSeparator(buf, false) && EndQuoted(buf, false) == q
    ensures Flat(Lex(text, buf, q)) == RStrip(buf + Kept(text, q))
    decreases |text|
  {
    if text == "" {
      assert buf + "" == buf;
      FlushKeeps(buf);
    } else {
      var c := text[0];
      if c != '"' && !q && Separates(c) {
        var rest := Kept(text[1..], false);
        LexKeeps(text[1..], "", false);
        assert "" + rest == rest;
        KeptStartsSolid(text[1..]);
        SeparatorKeeps(buf, rest, Lex(text[1..], "", false));
      } else {
        var next := if c == '"' then !q else q;
        NoBareGrow(buf, c, q);
        LexKeeps(text[1..], buf + [c], next);
        KeptGrow(text, buf, q, next);
        LexGrow(text, buf, q, next);
      }
    }
  }

  lemma {:induction false} KeptStartsSolid(text: string)
    ensures Kept(text, false) != "" ==> !IsSpace(Kept(text, false)[0])
    decreases |text|
  {
    if text != "" && text[0] != '"' && Separates(text[0]) {
      KeptStartsSolid(text[1..]);
    }
  }

  /** The tokens, run together, are the bracket-free text without its unquoted separators,
      up to trailing space inside a quote that is never closed. */
  lemma SplitKeepsText(s: string)
    ensures Flat(Split(Text(s))) == RStrip(Kept(DropBrackets(s), false))
  {
    SplitText(s);
    DropBracketsFree(s);
    LexKeeps(DropBrackets(s), "", false);
    assert "" + Kept(DropBrackets(s), false) == Kept(DropBrackets(s), false);
  }

  // ---------------------------------------------------------------- brackets and quotes in plain terms

  lemma {:induction false} DropBracketsConcat(a: string, b: string)
    ensures DropBrackets(a + b) == DropBrackets(a) + DropBrackets(b)
    decreases |a|
  {
    if a == "" {
      assert a + b == b;
    } else {
      assert (a + b)[1..] == a[1..] + b;
      DropBracketsConcat(a[1..], b);
    }
  }

  /** What is removed: the square brackets, wherever they are, and nothing else. */
  lemma DropBracketsExactly(a: string, b: string)
    requires '[' !in a && ']' !in a
    ensures DropBrackets(a) == a
    ensures DropBrackets(a + "[" + b) == DropBrackets(a + "]" + b) == a + DropBrackets(b)
  {
    PlainKept(a);
    assert a + "[" + b == a + ("[" + b) && a + "]" + b == a + ("]" + b);
    DropBracketsConcat(a, "[" + b);
    DropBracketsConcat(a, "]" + b);
    assert ("[" + b)[1..] == b && ("]" + b)[1..] == b;
  }

  lemma {:induction false} PlainKept(a: string)
    requires '[' !in a && ']' !in a
    ensures DropBrackets(a) == a
    decreases |a|
  {
    if a != "" {
      assert a[0] in a && a == [a[0]] + a[1..];
      PlainKept(a[1..]);
    }
  }

  /** What is quoted: the value of a flag that has a comma and no quote, from its first `=` on. Every
      other flag is printed as it is. */
  lemma FormattedExactly(key: string, value: string, flag: string)
    requires '=' !in key
    ensures (',' in key || ',' in value) && '"' !in key && '"' !in value ==>
              Formatted(key + "=" + value) == key + "=" + "\"" + value + "\""
    ensures ',' !in flag || '=' !in flag || '"' in flag ==> Formatted(flag) == flag
  {
    var f := key + "=" + value;
    assert f[|key|] == '=' && f[..|key|] == key && f[|key| + 1..] == value;
    IndexOfFirst(f, '=', |key|);
    var n := IndexOf(f, '=');
    assert forall i :: 0 <= i < |key| ==> f[i] == key[i];
    assert n == |key|;
    if ',' in key { var i :| 0 <= i < |key| && key[i] == ','; assert f[i] == ','; }
    if ',' in value { var i :| 0 <= i < |value| && value[i] == ','; assert f[|key| + 1 + i] == ','; }
  }
}
