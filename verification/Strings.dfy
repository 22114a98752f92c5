/** The Python string operations that several parts of the driver use. */
module Strings {

  /** Python's `str.isspace` for one character. */
  predicate IsSpace(c: char) {
    || '\U{09}' <= c <= '\U{0D}'
    || '\U{1C}' <= c <= '\U{20}'
    || c == '\U{85}' || c == '\U{A0}' || c == '\U{1680}'
    || '\U{2000}' <= c <= '\U{200A}'
    || c == '\U{2028}' || c == '\U{2029}' || c == '\U{202F}'
    || c == '\U{205F}' || c == '\U{3000}'
  }

  function LStrip(s: string): string {
    if s != "" && IsSpace(s[0]) then LStrip(s[1..]) else s
  }

  function RStrip(s: string): string {
    if s != "" && IsSpace(s[|s| - 1]) then RStrip(s[..|s| - 1]) else s
  }

  /** Python's `str.strip`. */
  function Strip(s: string): string {
    RStrip(LStrip(s))
  }

  /** Position of the first c; the length when there is none. */
  function IndexOf(s: string, c: char): (n: nat)
    ensures n <= |s|
    ensures c !in s[..n]
    ensures n < |s| ==> s[n] == c
  {
    if s == "" || s[0] == c then 0 else 1 + IndexOf(s[1..], c)
  }

  lemma {:induction false} IndexOfFirst(s: string, c: char, i: nat)
    requires i < |s| && s[i] == c
    ensures IndexOf(s, c) <= i
    decreases i
  {
    if s[0] != c { IndexOfFirst(s[1..], c, i - 1); }
  }

  predicate OccursAt(part: string, s: string, i: nat) {
    i + |part| <= |s| && s[i..i + |part|] == part
  }

  predicate EndsWith(s: string, tail: string) {
    |tail| <= |s| && s[|s| - |tail|..] == tail
  }

  lemma EndsWithExact(s: string, tail: string)
    ensures EndsWith(s, tail) <==> exists head :: s == head + tail
  {
    if EndsWith(s, tail) { assert s == s[..|s| - |tail|] + tail; }
  }

  lemma EndsWithJoined(head: string, tail: string)
    ensures EndsWith(head + tail, tail)
  {
  }

  predicate AllSpace(s: string) {
    forall i :: 0 <= i < |s| ==> IsSpace(s[i])
  }

  /** No space at either end. */
  predicate NoOuterSpace(s: string) {
    s != "" ==> !IsSpace(s[0]) && !IsSpace(s[|s| - 1])
  }

  lemma {:induction false} LStripPadded(pre: string, s: string)
    requires AllSpace(pre) && (s != "" ==> !IsSpace(s[0]))
    ensures LStrip(pre + s) == s
    decreases |pre|
  {
    if pre == "" {
      assert pre + s == s;
    } else {
      assert (pre + s)[1..] == pre[1..] + s;
      LStripPadded(pre[1..], s);
    }
  }

  lemma {:induction false} RStripPadded(s: string, post: string)
    requires AllSpace(post) && (s != "" ==> !IsSpace(s[|s| - 1]))
    ensures RStrip(s + post) == s
    decreases |post|
  {
    if post == "" {
      assert s + post == s;
    } else {
      assert (s + post)[..|s + post| - 1] == s + post[..|post| - 1];
      RStripPadded(s, post[..|post| - 1]);
    }
  }

  /** Stripping takes the space around a text, and nothing of the text. */
  lemma StripPadded(pre: string, s: string, post: string)
    requires AllSpace(pre) && AllSpace(post) && NoOuterSpace(s)
    ensures Strip(pre + s + post) == s
  {
    if s == "" {
      assert pre + s + post == (pre + post) + "";
      LStripPadded(pre + post, "");
      assert RStrip("") == "";
    } else {
      assert pre + s + post == pre + (s + post);
      LStripPadded(pre, s + post);
      RStripPadded(s, post);
    }
  }
}
