/** Sums of integer sequences, used to count threads by weight. */
module Sums {

  function Total(ws: seq<int>): int {
    if ws == [] then 0 else ws[0] + Total(ws[1..])
  }

  /** Replacing one weight moves the total by the difference. */
  lemma {:induction false} TotalUpdate(ws: seq<int>, i: nat, v: int)
    requires i < |ws|
    ensures Total(ws[i := v]) == Total(ws) - ws[i] + v
  {
    if i == 0 {
      assert ws[0 := v][1..] == ws[1..];
    } else {
      assert ws[i := v][1..] == ws[1..][i - 1 := v];
      TotalUpdate(ws[1..], i - 1, v);
    }
  }

  /** A total of non-negative weights is at least each weight. */
  lemma {:induction false} TotalBounds(ws: seq<int>, i: nat)
    requires i < |ws|
    requires forall k :: 0 <= k < |ws| ==> ws[k] >= 0
    ensures 0 <= ws[i] <= Total(ws)
  {
    TotalNonNegative(ws[1..]);
    if i > 0 {
      TotalBounds(ws[1..], i - 1);
    }
  }

  lemma {:induction false} TotalNonNegative(ws: seq<int>)
    requires forall k :: 0 <= k < |ws| ==> ws[k] >= 0
    ensures Total(ws) >= 0
  {
    if ws != [] {
      TotalNonNegative(ws[1..]);
    }
  }

  lemma {:induction false} TotalConstant(ws: seq<int>, c: int)
    requires forall k :: 0 <= k < |ws| ==> ws[k] == c
    ensures Total(ws) == |ws| * c
  {
    if ws != [] {
      TotalConstant(ws[1..], c);
    }
  }
}
