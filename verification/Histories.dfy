/** A bad condition over a run, when each step may cause it or cure it. */
module Histories {

  /** After step k it holds exactly when the step caused it, or did not cure it. */
  predicate Follows(bad: seq<bool>, causes: seq<bool>, cures: seq<bool>) {
    && |bad| == |causes| + 1 == |cures| + 1
    && forall k :: 0 <= k < |causes| ==> bad[k + 1] == (causes[k] || (bad[k] && !cures[k]))
  }

  predicate UncuredAfter(cures: seq<bool>, i: int) {
    forall j :: i < j < |cures| && 0 <= j ==> !cures[j]
  }

  /** Some step caused it, or it held at the start, and no later step cured it. */
  predicate Caused(atStart: bool, causes: seq<bool>, cures: seq<bool>) {
    || (atStart && UncuredAfter(cures, -1))
    || exists i :: 0 <= i < |causes| && causes[i] && UncuredAfter(cures, i)
  }

  lemma UncuredStep(cures: seq<bool>, i: int)
    requires -1 <= i < |cures| - 1
    ensures UncuredAfter(cures, i) <==> UncuredAfter(cures[..|cures| - 1], i) && !cures[|cures| - 1]
  {
    var n := |cures| - 1;
    if UncuredAfter(cures[..n], i) && !cures[n] {
      assert forall j :: 0 <= j < n ==> cures[..n][j] == cures[j];
    }
    if UncuredAfter(cures, i) {
      assert !cures[n];
      forall j | i < j < n && 0 <= j ensures !cures[..n][j] { assert !cures[j]; }
    }
  }

  lemma CausedStep(atStart: bool, causes: seq<bool>, cures: seq<bool>)
    requires |causes| == |cures| > 0
    ensures var n := |causes| - 1;
            Caused(atStart, causes, cures) <==>
            causes[n] || (Caused(atStart, causes[..n], cures[..n]) && !cures[n])
  {
    var n := |causes| - 1;
    UncuredStep(cures, -1);
    forall i | 0 <= i < n
      ensures UncuredAfter(cures, i) <==> UncuredAfter(cures[..n], i) && !cures[n]
    {
      UncuredStep(cures, i);
    }
    assert UncuredAfter(cures, n);
    if i :| 0 <= i < n && causes[..n][i] && UncuredAfter(cures[..n], i) {
      assert causes[i];
    }
    if i :| 0 <= i < |causes| && causes[i] && UncuredAfter(cures, i) {
      assert i < n ==> causes[..n][i];
    }
  }

  /** It holds at the end if and only if it is so caused. */
  lemma {:induction false} BadIffCaused(bad: seq<bool>, causes: seq<bool>, cures: seq<bool>)
    requires Follows(bad, causes, cures)
    ensures bad[|causes|] <==> Caused(bad[0], causes, cures)
    decreases |causes|
  {
    if causes != [] {
      var n := |causes| - 1;
      var before := bad[..n + 1];
      assert Follows(before, causes[..n], cures[..n]) by {
        forall k | 0 <= k < n ensures before[k + 1] == (causes[..n][k] || (before[k] && !cures[..n][k])) {
          assert bad[k + 1] == (causes[k] || (bad[k] && !cures[k]));
        }
      }
      BadIffCaused(before, causes[..n], cures[..n]);
      CausedStep(bad[0], causes, cures);
      assert bad[n + 1] == (causes[n] || (bad[n] && !cures[n]));
    }
  }
}
