/** The wall (`best_wall`) and the top of the ladder (`fishing_rate`) that
    `display_column` reads off the grouped book. */
module Walls {
  import opened Levels
  import Normalizer

  /** The first index of the largest amount among the levels of `book[i..]`
      whose rate is at or above `frr`, or None when no such level exists
      (`valid_walls['掛單量'].idxmax()` restricted to a suffix). */
  function HeaviestFrom(book: seq<Level>, frr: real, i: nat): (k: Option<nat>)
    requires i <= |book|
    decreases |book| - i
    ensures k.None? <==> forall j :: i <= j < |book| ==> book[j].rate < frr
    ensures k.Some? ==> i <= k.value < |book| && book[k.value].rate >= frr
    ensures k.Some? ==> forall j :: i <= j < |book| && book[j].rate >= frr ==> book[j].amount <= book[k.value].amount
    ensures k.Some? ==> forall j :: i <= j < k.value && book[j].rate >= frr ==> book[j].amount < book[k.value].amount
  {
    if i == |book| then None
    else
      var rest := HeaviestFrom(book, frr, i + 1);
      if book[i].rate < frr then rest
      else if rest.None? || book[rest.value].amount <= book[i].amount then Some(i)
      else rest
  }

  /** The position of the wall: the first heaviest level at or above the
      reference rate, or the first level when none is at or above it. */
  function WallIndex(book: seq<Level>, frr: real): (k: nat)
    requires book != []
    ensures k < |book|
    ensures (exists j :: 0 <= j < |book| && book[j].rate >= frr) ==>
      && book[k].rate >= frr
      && (forall j :: 0 <= j < |book| && book[j].rate >= frr ==> book[j].amount <= book[k].amount)
      && (forall j :: 0 <= j < k && book[j].rate >= frr ==> book[j].amount < book[k].amount)
    ensures (forall j :: 0 <= j < |book| ==> book[j].rate < frr) ==> k == 0
  {
    match HeaviestFrom(book, frr, 0)
    case Some(k) => k
    case None => 0
  }

  /** `best_wall`: the level at the wall's position. */
  function Wall(book: seq<Level>, frr: real): Level
    requires book != []
  {
    book[WallIndex(book, frr)]
  }

  /** With the reference rate taken from the head of a sorted book, every
      level qualifies: the `df.iloc[0]` fallback is never taken and the wall
      is the first (lowest-rate) level of largest amount in the whole book. */
  lemma WallOverWholeBook(book: seq<Level>)
    requires book != [] && StrictlyAscending(book)
    ensures HeaviestFrom(book, Normalizer.ReferenceRate(book), 0).Some?
    ensures var k := WallIndex(book, Normalizer.ReferenceRate(book));
      && (forall j :: 0 <= j < |book| ==> book[j].amount <= book[k].amount)
      && (forall j :: 0 <= j < k ==> book[j].amount < book[k].amount)
  {
    var frr := Normalizer.ReferenceRate(book);
    assert book[0].rate >= frr;
    var k := WallIndex(book, frr);
    forall j | 0 <= j < |book|
      ensures book[j].rate >= frr
    {
      Normalizer.ReferenceRateIsLowest(book);
    }
  }

  /** `fishing_rate`: the largest rate in the book. */
  function MaxRate(book: seq<Level>): (top: real)
    requires book != []
    ensures exists i :: 0 <= i < |book| && book[i].rate == top
    ensures forall i :: 0 <= i < |book| ==> book[i].rate <= top
  {
    if |book| == 1 then book[0].rate
    else
      var rest := MaxRate(book[1..]);
      assert forall i :: 1 <= i < |book| ==> book[i] == book[1..][i - 1];
      if book[0].rate > rest then book[0].rate else rest
  }

  /** In a sorted book the top of the ladder is the rate of the last level. */
  lemma MaxRateIsLast(book: seq<Level>)
    requires book != [] && StrictlyAscending(book)
    ensures MaxRate(book) == book[|book| - 1].rate
  {
    var i :| 0 <= i < |book| && book[i].rate == MaxRate(book);
    if i < |book| - 1 {
      assert book[i].rate < book[|book| - 1].rate;
    }
  }

  /** The three displayed rates are ordered: the reference rate (conservative)
      is at most the wall's rate, which is at most the fishing rate. */
  lemma LadderOrdered(book: seq<Level>)
    requires book != [] && StrictlyAscending(book)
    ensures var frr := Normalizer.ReferenceRate(book);
      frr <= Wall(book, frr).rate <= MaxRate(book)
  {
    WallOverWholeBook(book);
    Normalizer.ReferenceRateIsLowest(book);
  }
}
