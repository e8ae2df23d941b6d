/** Price levels of a funding order book (the lending side) and the sums
    taken over them. Rates and amounts are exact reals: the analysis only
    compares, adds and scales them by constants. */
module Levels {

  /** One level of the book: a per-period lending rate and the amount on offer at it. */
  datatype Level = Level(rate: real, amount: real)

  datatype Option<T> = None | Some(value: T)

  /** Total amount offered in `s`. */
  function Sum(s: seq<Level>): real
  {
    if s == [] then 0.0 else s[0].amount + Sum(s[1..])
  }

  /** Amount offered in `s` at exactly the rate `r`. */
  function AmountAt(s: seq<Level>, r: real): real
  {
    if s == [] then 0.0
    else (if s[0].rate == r then s[0].amount else 0.0) + AmountAt(s[1..], r)
  }

  /** The rates that occur in `s`. */
  function Rates(s: seq<Level>): set<real>
  {
    if s == [] then {} else {s[0].rate} + Rates(s[1..])
  }

  /** Sorted by rate with no rate appearing twice. */
  predicate StrictlyAscending(s: seq<Level>)
  {
    forall i, j :: 0 <= i < j < |s| ==> s[i].rate < s[j].rate
  }

  /** Sorted by rate, equal rates allowed. */
  predicate AscendingByRate(s: seq<Level>)
  {
    forall i, j :: 0 <= i < j < |s| ==> s[i].rate <= s[j].rate
  }

  /** Every level carries a positive amount (the lending side of the book). */
  predicate AllPositive(s: seq<Level>)
  {
    forall i :: 0 <= i < |s| ==> s[i].amount > 0.0
  }

  lemma {:induction false} SumAppend(a: seq<Level>, b: seq<Level>)
    ensures Sum(a + b) == Sum(a) + Sum(b)
  {
    if a != [] {
      assert (a + b)[1..] == a[1..] + b;
      SumAppend(a[1..], b);
    } else {
      assert a + b == b;
    }
  }

  lemma {:induction false} AmountAtAppend(a: seq<Level>, b: seq<Level>, r: real)
    ensures AmountAt(a + b, r) == AmountAt(a, r) + AmountAt(b, r)
  {
    if a != [] {
      assert (a + b)[1..] == a[1..] + b;
      AmountAtAppend(a[1..], b, r);
    } else {
      assert a + b == b;
    }
  }

  lemma {:induction false} RatesAppend(a: seq<Level>, b: seq<Level>)
    ensures Rates(a + b) == Rates(a) + Rates(b)
  {
    if a != [] {
      assert (a + b)[1..] == a[1..] + b;
      RatesAppend(a[1..], b);
    } else {
      assert a + b == b;
    }
  }

  /** A rate occurs in `s` exactly when some level of `s` carries it. */
  lemma {:induction false} RatesMembership(s: seq<Level>, r: real)
    ensures r in Rates(s) <==> exists i :: 0 <= i < |s| && s[i].rate == r
  {
    if s != [] {
      RatesMembership(s[1..], r);
      if r in Rates(s[1..]) {
        var i :| 0 <= i < |s[1..]| && s[1..][i].rate == r;
        assert s[i + 1].rate == r;
      }
      if exists i :: 0 <= i < |s| && s[i].rate == r {
        var i :| 0 <= i < |s| && s[i].rate == r;
        if i > 0 {
          assert s[1..][i - 1].rate == r;
        }
      }
    }
  }

  /** Only the empty book has no rates. */
  lemma RatesEmpty(s: seq<Level>)
    ensures s == [] <==> Rates(s) == {}
  {
    if s != [] {
      assert s[0].rate in Rates(s);
    }
  }

  /** A rate that is absent contributes nothing. */
  lemma {:induction false} AmountAtAbsent(s: seq<Level>, r: real)
    requires r !in Rates(s)
    ensures AmountAt(s, r) == 0.0
  {
    if s != [] {
      AmountAtAbsent(s[1..], r);
    }
  }

  /** Over positive amounts the total is positive exactly when the book is not empty. */
  lemma {:induction false} SumPositive(s: seq<Level>)
    requires AllPositive(s)
    ensures s == [] <==> Sum(s) == 0.0
    ensures s != [] ==> Sum(s) > 0.0
  {
    if s != [] {
      SumPositive(s[1..]);
    }
  }

  /** No single level outweighs the total when every amount is positive. */
  lemma {:induction false} LevelBelowSum(s: seq<Level>, i: nat)
    requires AllPositive(s) && i < |s|
    ensures s[i].amount <= Sum(s)
  {
    SumPositive(s[1..]);
    if i > 0 {
      LevelBelowSum(s[1..], i - 1);
    }
  }
}
