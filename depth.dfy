/** The cumulative-depth column and the mean volume that `display_column`
    derives from the grouped book. */
module Depth {
  import opened Levels

  /** Row `i` of the cumulative column: the amount resting at the rates of
      levels 0 through `i`. */
  function DepthAt(book: seq<Level>, i: nat): real
    requires i < |book|
  {
    Sum(book[..i + 1])
  }

  /** The running sum of amounts (`cumsum` over the amount column), built row by row. */
  method CumulativeColumn(book: seq<Level>) returns (cum: seq<real>)
    ensures |cum| == |book|
    ensures forall i :: 0 <= i < |book| ==> cum[i] == DepthAt(book, i)
  {
    cum := [];
    var running := 0.0;
    for i := 0 to |book|
      invariant |cum| == i
      invariant running == Sum(book[..i])
      invariant forall k :: 0 <= k < i ==> cum[k] == DepthAt(book, k)
    {
      running := running + book[i].amount;
      DepthStep(book, i);
      cum := cum + [running];
    }
  }

  /** Each row adds its own level's amount to the row before it. */
  lemma DepthStep(book: seq<Level>, i: nat)
    requires i < |book|
    ensures DepthAt(book, i) == Sum(book[..i]) + book[i].amount
    ensures i > 0 ==> DepthAt(book, i) == DepthAt(book, i - 1) + book[i].amount
  {
    assert book[..i + 1] == book[..i] + [book[i]];
    SumAppend(book[..i], [book[i]]);
    if i > 0 {
      assert book[..i - 1 + 1] == book[..i];
    }
  }

  /** Over positive amounts the cumulative column strictly increases, so in
      particular it never decreases. */
  lemma {:induction false} DepthIncreasing(book: seq<Level>, i: nat, j: nat)
    requires AllPositive(book)
    requires i < j < |book|
    ensures DepthAt(book, i) < DepthAt(book, j)
  {
    DepthStep(book, j);
    if i < j - 1 {
      DepthIncreasing(book, i, j - 1);
    }
  }

  /** The last row of the cumulative column is the total amount of the book. */
  lemma DepthTotal(book: seq<Level>)
    requires book != []
    ensures DepthAt(book, |book| - 1) == Sum(book)
  {
    assert book[..|book|] == book;
  }

  /** The mean amount per level (`avg_vol`). */
  function MeanAmount(book: seq<Level>): real
    requires book != []
  {
    Sum(book) / (|book| as real)
  }

  /** With positive amounts no level can exceed `factor` times the mean when
      the book has at most `factor` levels: the breakout scan then always
      falls back to the head of the queue. */
  lemma NoBreakoutInSmallBook(book: seq<Level>, factor: real, i: nat)
    requires book != [] && AllPositive(book)
    requires |book| as real <= factor
    requires i < |book|
    ensures book[i].amount <= factor * MeanAmount(book)
  {
    LevelBelowSum(book, i);
    SumPositive(book);
    var n := |book| as real;
    var mean := MeanAmount(book);
    assert Sum(book) == n * mean;
    assert mean > 0.0;
    assert n * mean <= factor * mean;
  }
}
