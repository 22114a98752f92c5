/** Mount options that travel as a set: `normalize_mount_options` of utils.py cuts the text at every
    comma and lists the pieces in any order; inline volumes (plugins/base.py) cut it at every comma
    and space. */
module OptionOrders {
  import opened Lists
  import opened MountFlags
  import opened NfsOptions
  import opened Strings
  import opened Wrappers

  /** `normalize_mount_options`, before it is listed. */
  function Options(text: string): set<string> {
    set p | p in Pieces(Strip(text)) && p != ""
  }

  /** One of the orders in which the set may be listed. */
  predicate ListsAll(order: seq<string>, options: set<string>) {
    Elements(order) == options && Distinct(order)
  }

  /** The flags that mount reads from the argument it is given. */
  function Read(order: seq<string>): seq<string> {
    Split(Text(CommaJoin(order)))
  }

  /** A piece without commas, spaces and brackets. */
  predicate Plain(p: string) {
    p != "" && BracketFree(p) && ',' !in p && forall i :: 0 <= i < |p| ==> !IsSpace(p[i])
  }

  predicate AllPlain(ps: seq<string>) {
    forall i :: 0 <= i < |ps| ==> Plain(ps[i])
  }

  lemma PlainToken(p: string)
    requires Plain(p)
    ensures Token(p)
  {
    NoSpaceNoBare(p, false);
  }

  /** The argument of a mount with such options is their comma-join, so this is what is read. */
  lemma ReadIsPassed(order: seq<string>)
    requires order != [] && AllPlain(order)
    ensures NfsMountArgument(order) == Some(CommaJoin(order))
  {
    forall i | 0 <= i < |order| ensures ',' !in order[i] && Token(order[i]) { PlainToken(order[i]); }
    PiecesOfJoin(order);
    assert CommaJoin(order) != "";
    NfsArgumentIsJoin(order);
  }

  // ---------------------------------------------------------------- flags and pieces

  lemma {:induction false} JoinConcat(xs: seq<string>, ys: seq<string>)
    requires xs != [] && ys != []
    ensures CommaJoin(xs + ys) == CommaJoin(xs) + "," + CommaJoin(ys)
    decreases |xs|
  {
    var all := xs + ys;
    if |xs| == 1 {
      assert all[1..] == ys;
    } else {
      assert all[1..] == xs[1..] + ys;
      JoinConcat(xs[1..], ys);
    }
  }

  lemma JoinedPieces(xs: seq<string>, ys: seq<string>)
    requires xs != [] && ys != [] && CommaFree(xs) && CommaFree(ys)
    ensures Pieces(CommaJoin(xs) + "," + CommaJoin(ys)) == xs + ys
  {
    JoinConcat(xs, ys);
    PiecesOfJoin(xs + ys);
  }

  lemma PiecesConcat(a: string, b: string)
    ensures Pieces(a + "," + b) == Pieces(a) + Pieces(b)
  {
    JoinPieces(a);
    JoinPieces(b);
    PiecesCommaFree(a);
    PiecesCommaFree(b);
    JoinedPieces(Pieces(a), Pieces(b));
  }

  function AllPieces(fs: seq<string>): seq<string> {
    if fs == [] then [] else Pieces(fs[0]) + AllPieces(fs[1..])
  }

  predicate SpaceFree(s: string) {
    BracketFree(s) && forall i :: 0 <= i < |s| ==> !IsSpace(s[i])
  }

  lemma FlushSpaceFree(buf: string)
    requires SpaceFree(buf) && buf != ""
    ensures Flush(buf) == [buf]
  {
    assert LStrip(buf) == buf && RStrip(buf) == buf;
  }

  lemma EmptyPiece()
    ensures "" in Pieces("")
  {
    assert Pieces("") == [""];
  }

  lemma RestPieces(buf: string, rest: string)
    requires "" !in Pieces(buf + "," + rest)
    ensures "" !in Pieces("" + rest) && "" + rest == rest
  {
    PiecesConcat(buf, rest);
    assert "" + rest == rest;
  }

  lemma SeparatedPieces(buf: string, rest: string, fs: seq<string>)
    requires SpaceFree(buf) && "" !in Pieces(buf + "," + rest) && AllPieces(fs) == Pieces(rest)
    ensures AllPieces(Flush(buf) + fs) == Pieces(buf + "," + rest)
  {
    PiecesConcat(buf, rest);
    EmptyPiece();
    assert buf != "";
    FlushSpaceFree(buf);
    assert ([buf] + fs)[1..] == fs;
  }

  lemma LastPieces(buf: string)
    requires SpaceFree(buf) && "" !in Pieces(buf)
    ensures AllPieces(Flush(buf)) == Pieces(buf)
  {
    EmptyPiece();
    FlushSpaceFree(buf);
    assert [buf][1..] == [] && AllPieces([buf]) == Pieces(buf) + AllPieces([]);
  }

  lemma LexStep(text: string, buf: string, q: bool)
    requires SpaceFree(text) && text != "" && SpaceFree(buf)
    ensures Lex(text, buf, q) ==
            if !q && text[0] == ',' then Flush(buf) + Lex(text[1..], "", q)
            else Lex(text[1..], buf + [text[0]], if text[0] == '"' then !q else q)
    ensures SpaceFree(text[1..]) && SpaceFree(buf + [text[0]])
  {
    assert Separates(text[0]) <==> text[0] == ',';
  }

  /** Cut at commas, the flags that are read are the pieces of the text, in order. */
  lemma {:induction false} LexPieces(text: string, buf: string, q: bool)
    requires SpaceFree(text) && SpaceFree(buf) && "" !in Pieces(buf + text)
    ensures AllPieces(Lex(text, buf, q)) == Pieces(buf + text)
    decreases |text|
  {
    if text == "" {
      assert buf + text == buf;
      LastPieces(buf);
    } else {
      var c, rest := text[0], text[1..];
      assert text == [c] + rest;
      LexStep(text, buf, q);
      if !q && c == ',' {
        assert buf + text == buf + "," + rest;
        RestPieces(buf, rest);
        LexPieces(rest, "", q);
        SeparatedPieces(buf, rest, Lex(rest, "", q));
      } else {
        assert buf + text == (buf + [c]) + rest;
        LexPieces(rest, buf + [c], if c == '"' then !q else q);
      }
    }
  }

  lemma {:induction false} JoinSpaceFree(ps: seq<string>)
    requires AllPlain(ps)
    ensures SpaceFree(CommaJoin(ps))
    decreases |ps|
  {
    if |ps| > 1 {
      JoinSpaceFree(ps[1..]);
    }
  }

  lemma ReadPieces(ps: seq<string>)
    requires ps != [] && AllPlain(ps)
    ensures AllPieces(Read(ps)) == ps
  {
    var text := CommaJoin(ps);
    JoinSpaceFree(ps);
    PiecesOfJoin(ps);
    SplitText(text);
    DropBracketsFree(text);
    assert "" + text == text;
    LexPieces(text, "", false);
  }

  lemma {:induction false} AllPiecesHas(fs: seq<string>, f: string, p: string)
    requires f in fs && p in Pieces(f)
    ensures p in AllPieces(fs)
    decreases |fs|
  {
    if f != fs[0] { AllPiecesHas(fs[1..], f, p); }
  }

  lemma {:induction false} AllPiecesCommaFree(fs: seq<string>)
    requires CommaFree(fs)
    ensures AllPieces(fs) == fs
    decreases |fs|
  {
    if fs != [] {
      var n := IndexOf(fs[0], ',');
      assert CommaFree(fs[1..]);
      AllPiecesCommaFree(fs[1..]);
      assert fs == [fs[0]] + fs[1..];
    }
  }

  // ---------------------------------------------------------------- orders

  /** With all quotes closed in each piece, every order is read as itself. */
  lemma BalancedReads(order: seq<string>)
    requires AllPlain(order) && forall i :: 0 <= i < |order| - 1 ==> Balanced(order[i])
    ensures Read(order) == order
  {
    forall i | 0 <= i < |order| ensures Token(order[i]) { PlainToken(order[i]); }
    SplitText(CommaJoin(order));
    CommaJoinRoundTrip(order);
  }

  /** An open quote before the last piece: some flag that is read has a comma. */
  lemma OpenReadsComma(order: seq<string>)
    requires order != [] && AllPlain(order) && !AllButLastBalanced(order)
    ensures exists f :: f in Read(order) && ',' in f
  {
    if CommaFree(Read(order)) {
      AllPiecesCommaFree(Read(order));
      ReadPieces(order);
      SplitText(CommaJoin(order));
      CommaJoinRoundTrip(order);
    } else {
      var i :| 0 <= i < |Read(order)| && ',' in Read(order)[i];
      assert Read(order)[i] in Read(order);
    }
  }

  lemma ListOf(options: set<string>) returns (order: seq<string>)
    ensures ListsAll(order, options)
  {
    order := [];
    var rest := options;
    while rest != {}
      invariant rest <= options && ListsAll(order, options - rest)
      decreases rest
    {
      var p :| p in rest;
      assert p !in Elements(order);
      ElementsConcat(order, [p]);
      assert Elements([p]) == {p} && options - (rest - {p}) == options - rest + {p};
      order, rest := order + [p], rest - {p};
    }
  }

  lemma ListsPlain(order: seq<string>, options: set<string>)
    requires ListsAll(order, options) && forall p :: p in options ==> Plain(p)
    ensures AllPlain(order)
  {
    forall i | 0 <= i < |order| ensures Plain(order[i]) { assert order[i] in Elements(order); }
  }

  lemma MergedToken(u: string, v: string)
    requires Plain(u) && Plain(v) && !Balanced(u) && !Balanced(v)
    ensures Token(u + "," + v) && Balanced(u + "," + v)
  {
    var open := u + ",";
    PlainToken(u);
    NoSpaceNoBare(v, true);
    EndQuotedConcat(u, ",", false);
    NoBareConcat(u, ",", false);
    assert ","[1..] == "";
    NoBareConcat(open, v, false);
    EndQuotedConcat(open, v, false);
    EndFlips(v);
  }

  lemma JoinMerged(u: string, v: string, rest: seq<string>)
    ensures CommaJoin([u, v] + rest) == CommaJoin([u + "," + v] + rest)
  {
    var w := u + "," + v;
    var all, merged := [u, v] + rest, [w] + rest;
    assert all[1..] == [v] + rest && ([v] + rest)[1..] == rest && merged[1..] == rest;
    if rest == [] {
      assert all == [u, v] && merged == [w] && all[1..] == [v];
    } else {
      assert CommaJoin([v] + rest) == v + "," + CommaJoin(rest);
      assert u + "," + (v + "," + CommaJoin(rest)) == w + "," + CommaJoin(rest);
    }
  }

  /** Two pieces that each leave a quote open are read as one flag when they are neighbours. */
  lemma OpenPairMerges(u: string, v: string, rest: seq<string>)
    requires Plain(u) && Plain(v) && AllPlain(rest) && !Balanced(u) && !Balanced(v)
    ensures Read([u, v] + rest) == [u + "," + v] + if rest == [] then [] else Read(rest)
  {
    MergedToken(u, v);
    MergedReads(u + "," + v, rest);
    JoinMerged(u, v, rest);
  }

  lemma {:induction false} EndFlips(v: string)
    ensures EndQuoted(v, true) == !EndQuoted(v, false)
    decreases |v|
  {
    if v != "" { EndFlips(v[1..]); }
  }

  lemma MergedLex(w: string, tail: string)
    requires Token(w) && Balanced(w)
    ensures Lex(w + ("," + tail), "", false) == [w] + Lex(tail, "", false)
  {
    FlushBuffer(w);
    LexStretch(w, "," + tail, "", false);
    assert "" + w == w && ("," + tail)[1..] == tail;
  }

  lemma MergedReads(w: string, rest: seq<string>)
    requires Token(w) && Balanced(w) && AllPlain(rest)
    ensures Read([w] + rest) == [w] + if rest == [] then [] else Read(rest)
  {
    var all := [w] + rest;
    SplitText(CommaJoin(all));
    if rest == [] {
      assert all == [w];
      assert Clean([w]);
      CommaJoinRoundTrip([w]);
    } else {
      var tail := CommaJoin(rest);
      assert all[1..] == rest && CommaJoin(all) == w + ("," + tail);
      JoinSpaceFree(rest);
      SplitText(tail);
      DropBracketsFree(tail);
      DropBracketsFree(w + ("," + tail));
      MergedLex(w, tail);
    }
  }

  lemma PairDiffers(u: string, v: string, rest: seq<string>)
    requires Plain(u) && Plain(v) && AllPlain(rest) && !Balanced(u) && !Balanced(v)
    requires u != v && u !in rest && v !in rest
    ensures u + "," + v in Read([u, v] + rest) && u + "," + v !in Read([v, u] + rest)
  {
    var f, g := u + "," + v, v + "," + u;
    OpenPairMerges(u, v, rest);
    OpenPairMerges(v, u, rest);
    PiecesConcat(u, v);
    PiecesConcat(v, u);
    PiecesOfJoin([u]);
    PiecesOfJoin([v]);
    assert Pieces(f) == [u, v] && Pieces(g) == [v, u];
    assert f != g;
    if rest != [] && f in Read(rest) {
      assert u in Pieces(f);
      AllPiecesHas(Read(rest), f, u);
      ReadPieces(rest);
    }
  }

  predicate AllBalanced(options: set<string>) {
    forall p :: p in options ==> Balanced(p)
  }

  predicate AtMostOne(options: set<string>) {
    forall p, q :: p in options && q in options ==> p == q
  }

  /** Every two orders are read as the same flags. */
  ghost predicate OrderIsIrrelevant(options: set<string>) {
    forall a, b :: ListsAll(a, options) && ListsAll(b, options) ==> Elements(Read(a)) == Elements(Read(b))
  }

  lemma OrdersDiffer(options: set<string>, p: string, q: string) returns (a: seq<string>, b: seq<string>)
    requires forall x :: x in options ==> Plain(x)
    requires p in options && q in options && p != q && !Balanced(p)
    ensures ListsAll(a, options) && ListsAll(b, options) && Elements(Read(a)) != Elements(Read(b))
  {
    if v :| v in options && v != p && !Balanced(v) {
      var rest := ListOf(options - {p, v});
      ListsPlain(rest, options - {p, v});
      assert p !in Elements(rest) && v !in Elements(rest);
      a, b := [p, v] + rest, [v, p] + rest;
      PairDiffers(p, v, rest);
      ElementsConcat([p, v], rest);
      ElementsConcat([v, p], rest);
      assert Elements([p, v]) == {p, v} && Elements([v, p]) == {p, v};
      assert Elements(a) == options && Elements(b) == options;
      assert p + "," + v in Elements(Read(a)) && p + "," + v !in Elements(Read(b));
    } else {
      var rest := ListOf(options - {p});
      ListsPlain(rest, options - {p});
      assert q in Elements(rest) && p !in Elements(rest);
      forall i | 0 <= i < |rest| ensures Balanced(rest[i]) { assert rest[i] in Elements(rest); }
      a, b := rest + [p], [p] + rest;
      ElementsConcat(rest, [p]);
      ElementsConcat([p], rest);
      assert Elements([p]) == {p};
      assert Elements(a) == options && Elements(b) == options;
      ListsPlain(a, options);
      ListsPlain(b, options);
      BalancedReads(a);
      assert !AllButLastBalanced(b) by { assert b[0] == p; }
      OpenReadsComma(b);
      var f :| f in Read(b) && ',' in f;
      assert f in Elements(Read(b)) && f !in Elements(Read(a));
    }
  }

  /** For options without spaces and brackets: the order in which the set is listed makes no
      difference to mount if and only if every piece closes its quotes, or there is only one. */
  lemma OrderIrrelevantExactly(options: set<string>)
    requires forall p :: p in options ==> Plain(p)
    ensures OrderIsIrrelevant(options) <==> AllBalanced(options) || AtMostOne(options)
  {
    if AllBalanced(options) {
      forall a, b | ListsAll(a, options) && ListsAll(b, options) ensures Elements(Read(a)) == Elements(Read(b)) {
        AllBalancedReads(a, options);
        AllBalancedReads(b, options);
      }
    } else if AtMostOne(options) {
      forall a, b | ListsAll(a, options) && ListsAll(b, options) ensures a == b {
        OneListing(a, b, options);
      }
    } else {
      var p :| p in options && !Balanced(p);
      var q :| q in options && q != p;
      var a, b := OrdersDiffer(options, p, q);
    }
  }

  lemma AllBalancedReads(order: seq<string>, options: set<string>)
    requires ListsAll(order, options) && AllBalanced(options) && forall p :: p in options ==> Plain(p)
    ensures Read(order) == order
  {
    ListsPlain(order, options);
    forall i | 0 <= i < |order| ensures Balanced(order[i]) { assert order[i] in Elements(order); }
    BalancedReads(order);
  }

  lemma TwoListed(order: seq<string>)
    requires |order| >= 2 && Distinct(order)
    ensures exists p, q :: p in Elements(order) && q in Elements(order) && p != q
  {
    assert order[0] in Elements(order) && order[1] in Elements(order) && order[0] != order[1];
  }

  lemma OneListing(a: seq<string>, b: seq<string>, options: set<string>)
    requires ListsAll(a, options) && ListsAll(b, options) && AtMostOne(options)
    ensures a == b
  {
    if |a| >= 2 { TwoListed(a); }
    if |b| >= 2 { TwoListed(b); }
    assert a != [] ==> a[0] in Elements(b);
    assert b != [] ==> b[0] in Elements(a);
  }

  /** The pieces that are not empty. */
  function Filled(ps: seq<string>): seq<string> {
    if ps == [] then [] else (if ps[0] == "" then [] else [ps[0]]) + Filled(ps[1..])
  }

  lemma {:induction false} FilledElements(ps: seq<string>)
    ensures Elements(Filled(ps)) == Elements(ps) - {""}
    ensures (forall p :: p in ps && p != "" ==> Plain(p)) ==> AllPlain(Filled(ps))
    decreases |ps|
  {
    if ps != [] {
      FilledElements(ps[1..]);
      assert ps == [ps[0]] + ps[1..];
      ElementsConcat([ps[0]], ps[1..]);
      ElementsConcat(if ps[0] == "" then [] else [ps[0]], Filled(ps[1..]));
    }
  }

  /** Empty pieces are not read: with closed quotes the flags are the others, in order. */
  lemma {:induction false} EmptyPiecesSkipped(ps: seq<string>)
    requires forall p :: p in ps && p != "" ==> Plain(p) && Balanced(p)
    ensures Lex(CommaJoin(ps), "", false) == Filled(ps)
    decreases |ps|
  {
    if |ps| == 0 {
    } else {
      var p, tail := ps[0], ps[1..];
      if p != "" { PlainToken(p); }
      if |ps| == 1 {
        assert tail == [];
        OnePieceLex(p);
      } else {
        EmptyPiecesSkipped(tail);
        if p == "" {
          assert CommaJoin(ps) == "," + CommaJoin(tail);
          assert ("," + CommaJoin(tail))[1..] == CommaJoin(tail);
        } else {
          assert CommaJoin(ps) == p + ("," + CommaJoin(tail));
          MergedLex(p, CommaJoin(tail));
        }
      }
    }
  }

  lemma OnePieceLex(p: string)
    requires p != "" ==> Token(p) && Balanced(p)
    ensures Lex(p, "", false) == if p == "" then [] else [p]
  {
    if p != "" {
      assert Clean([p]);
      DropBracketsFree(p);
      CommaJoinRoundTrip([p]);
    }
  }

  lemma {:induction false} JoinBracketFree(ps: seq<string>)
    requires forall p :: p in ps ==> BracketFree(p)
    ensures BracketFree(CommaJoin(ps))
    decreases |ps|
  {
    if ps != [] { assert ps[0] in ps; }
    if |ps| > 1 { JoinBracketFree(ps[1..]); }
  }

  /** And then it is read as the flags of the option text itself, empty pieces or not. */
  lemma BalancedOptionsSurvive(text: string, order: seq<string>)
    requires (forall p :: p in Options(text) ==> Plain(p)) && AllBalanced(Options(text))
    requires ListsAll(order, Options(text))
    ensures Elements(Read(order)) == Elements(Split(Text(Strip(text))))
  {
    var ps := Pieces(Strip(text));
    assert forall p :: p in ps && p != "" ==> p in Options(text);
    AllBalancedReads(order, Options(text));
    JoinPieces(Strip(text));
    JoinBracketFree(ps);
    SplitText(Strip(text));
    DropBracketsFree(Strip(text));
    EmptyPiecesSkipped(ps);
    FilledElements(ps);
    assert Options(text) == Elements(ps) - {""};
  }

  /** With spaces in the pieces the condition is not the same: a piece and the same piece behind a
      space are two options, and pass the same flags in either order, whatever their quotes. */
  lemma SpacedPiecesCoincide(p: string)
    requires Plain(p)
    ensures PassedFlags([p, " " + p]) == PassedFlags([" " + p, p])
  {
    var q := " " + p;
    StripSpaced(p);
    PiecesOfJoin([p, q]);
    PiecesOfJoin([q, p]);
    TrimmedTwo(p, q);
    TrimmedTwo(q, p);
  }

  lemma StripSpaced(p: string)
    requires Plain(p)
    ensures Strip(p) == p && Strip(" " + p) == p && ',' !in " " + p
  {
    var q := " " + p;
    assert q[0] == ' ' && q[1..] == p;
    assert LStrip(p) == p && RStrip(p) == p;
    assert LStrip(q) == LStrip(p);
  }

  lemma TrimmedTwo(a: string, b: string)
    requires Strip(a) != "" && Strip(b) != ""
    ensures Trimmed([a, b]) == [Strip(a), Strip(b)]
  {
    assert [a, b][1..] == [b] && [b][1..] == [];
    assert Trimmed([b]) == [Strip(b)] + Trimmed([]);
  }

  // ---------------------------------------------------------------- inline volumes

  /** `text.replace(",", " ").split()`. */
  function Words(text: string, word: string): seq<string>
    decreases |text|
  {
    var done := if word == "" then [] else [word];
    if text == "" then done
    else if Separates(text[0]) then done + Words(text[1..], "")
    else Words(text[1..], word + [text[0]])
  }

  lemma {:induction false} WordsStretch(t: string, rest: string, word: string)
    requires forall i :: 0 <= i < |t| ==> !Separates(t[i])
    ensures Words(t + rest, word) == Words(rest, word + t)
    decreases |t|
  {
    if t == "" {
      assert t + rest == rest && word + t == word;
    } else {
      assert (t + rest)[1..] == t[1..] + rest && word + t == (word + [t[0]]) + t[1..];
      WordsStretch(t[1..], rest, word + [t[0]]);
    }
  }

  lemma TwoWords(a: string, b: string)
    requires Plain(a) && Plain(b)
    ensures Words(a + "," + b, "") == [a, b]
  {
    forall i | 0 <= i < |a| ensures !Separates(a[i]) { assert a[i] in a; }
    forall i | 0 <= i < |b| ensures !Separates(b[i]) { assert b[i] in b; }
    assert a + "," + b == a + ("," + b) && "" + a == a && "" + b == b && b + "" == b;
    WordsStretch(a, "," + b, "");
    assert ("," + b)[1..] == b;
    WordsStretch(b, "", "");
  }

  /** An option of an inline volume with a comma inside quotes is cut into two flags that each leave
      a quote open, where the quote-aware reader sees one flag. */
  lemma InlineOptionCut(a: string, b: string)
    requires Plain(a) && Plain(b) && !Balanced(a) && !Balanced(b)
    ensures Words(a + "," + b, "") == [a, b]
    ensures Split(Text(a + "," + b)) == [a + "," + b]
  {
    TwoWords(a, b);
    MergedToken(a, b);
    SplitText(a + "," + b);
    assert Clean([a + "," + b]);
    CommaJoinRoundTrip([a + "," + b]);
  }

  lemma {:induction false} WordsCutFrom(a: string, c: char, b: string, word: string)
    requires Separates(c)
    ensures Words(a + [c] + b, word) == Words(a, word) + Words(b, "")
    decreases |a|
  {
    var all := a + [c] + b;
    if a == "" {
      assert all[1..] == b;
    } else {
      assert all[1..] == a[1..] + [c] + b;
      WordsCutFrom(a[1..], c, b, if Separates(a[0]) then "" else word + [a[0]]);
    }
  }

  /** Options of inline volumes are cut at every comma and space, and nowhere else; nothing is made of
      what is empty. */
  lemma WordsExactly(a: string, c: char, b: string, word: string)
    requires c == ',' || IsSpace(c)
    requires word != "" && forall i :: 0 <= i < |word| ==> word[i] != ',' && !IsSpace(word[i])
    ensures Words(a + [c] + b, "") == Words(a, "") + Words(b, "")
    ensures Words(word, "") == [word] && Words("", "") == []
  {
    WordsCutFrom(a, c, b, "");
    WordsStretch(word, "", "");
    assert word + "" == word && "" + word == word;
  }
}
