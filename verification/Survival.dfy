/** What is left of an item that a series of steps brings and drops. */
module Survival {
  /** What one step does to the item: it may drop it, and then it may bring it. */
  datatype Mark = Mark(brings: bool, drops: bool)

  predicate Survives(before: bool, mark: Mark) {
    mark.brings || (before && !mark.drops)
  }

  predicate Present(initially: bool, marks: seq<Mark>) {
    if marks == [] then initially
    else Survives(Present(initially, marks[..|marks| - 1]), marks[|marks| - 1])
  }

  /** Whether it is there, step by step. */
  lemma {:induction false} PresentFollows(there: seq<bool>, marks: seq<Mark>)
    requires |there| == |marks| + 1
    requires forall i | 0 <= i < |marks| :: there[i + 1] == Survives(there[i], marks[i])
    ensures there[|marks|] <==> Present(there[0], marks)
  {
    if marks != [] { PresentFollows(there[..|marks|], marks[..|marks| - 1]); }
  }

  predicate KeptFrom(marks: seq<Mark>, from: nat) {
    forall j | from <= j < |marks| :: !marks[j].drops
  }

  /** Step `i` brought the item, and no later one dropped it. */
  predicate BroughtBy(marks: seq<Mark>, i: nat) {
    i < |marks| && marks[i].brings && KeptFrom(marks, i + 1)
  }

  /** The item is there exactly if some step brought it and none dropped it since, or it was there
      and none dropped it at all. */
  lemma {:induction false} PresentExactly(initially: bool, marks: seq<Mark>)
    ensures Present(initially, marks) <==>
      (exists i: nat :: BroughtBy(marks, i)) || (initially && KeptFrom(marks, 0))
  {
    if marks != [] {
      var n := |marks| - 1;
      PresentExactly(initially, marks[..n]);
      forall from: nat | from <= n ensures KeptFrom(marks, from) <==> KeptFrom(marks[..n], from) && !marks[n].drops {
        assert forall j | from <= j < n :: marks[..n][j] == marks[j];
      }
      forall i: nat ensures BroughtBy(marks, i) <==>
          if i == n then marks[n].brings else BroughtBy(marks[..n], i) && !marks[n].drops
      {
        assert i < n ==> marks[..n][i] == marks[i];
      }
      assert marks[n].brings ==> BroughtBy(marks, n);
    }
  }
}
