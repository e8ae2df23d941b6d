/** The "three biggest walls" panel: the `count` levels with the largest
    amounts (`nlargest`, which keeps the earliest row on ties), shown in rate
    order (`sort_values` on the rate). */
module Ranking {
  import opened Levels

  /** How many walls the panel lists. */
  const WallCount: nat := 3

  /** Amounts never increase along `s`. */
  predicate NonIncreasingAmount(s: seq<Level>)
  {
    forall i, j :: 0 <= i < j < |s| ==> s[i].amount >= s[j].amount
  }

  /** `a` ranks before `b`: a larger amount, or the same amount at a lower rate. */
  predicate Outranks(a: Level, b: Level)
  {
    a.amount > b.amount || (a.amount == b.amount && a.rate < b.rate)
  }

  /** Larger amounts first; on equal amounts the lower rate first. */
  predicate HeavierFirst(s: seq<Level>)
  {
    forall i, j :: 0 <= i < j < |s| ==> Outranks(s[i], s[j])
  }

  lemma ConsHeavierFirst(x: Level, s: seq<Level>)
    requires HeavierFirst(s)
    requires forall j :: 0 <= j < |s| ==> Outranks(x, s[j])
    ensures HeavierFirst([x] + s)
  {
  }

  lemma ConsNonIncreasing(x: Level, s: seq<Level>)
    requires NonIncreasingAmount(s)
    requires forall j :: 0 <= j < |s| ==> x.amount >= s[j].amount
    ensures NonIncreasingAmount([x] + s)
  {
  }

  lemma ConsAscendingByRate(x: Level, s: seq<Level>)
    requires AscendingByRate(s)
    requires forall j :: 0 <= j < |s| ==> x.rate <= s[j].rate
    ensures AscendingByRate([x] + s)
  {
  }

  /** Inserts `x`, which came earlier in the book than every level of `s`,
      in front of the first level that does not outweigh it. */
  function InsertByAmount(x: Level, s: seq<Level>): (r: seq<Level>)
    ensures multiset(r) == multiset(s) + multiset{x}
    ensures |r| == |s| + 1
  {
    if s == [] || s[0].amount <= x.amount then [x] + s
    else
      assert s == [s[0]] + s[1..];
      [s[0]] + InsertByAmount(x, s[1..])
  }

  /** Every level of `r` came from `s` or is `x`. */
  lemma InsertedFrom(x: Level, s: seq<Level>, r: seq<Level>, l: Level)
    requires multiset(r) == multiset(s) + multiset{x}
    requires l in r
    ensures l == x || l in s
  {
    assert l in multiset(r);
  }

  /** Insertion keeps the amounts non-increasing. */
  lemma {:induction false} InsertKeepsNonIncreasing(x: Level, s: seq<Level>)
    requires NonIncreasingAmount(s)
    ensures NonIncreasingAmount(InsertByAmount(x, s))
  {
    if s == [] || s[0].amount <= x.amount {
      ConsNonIncreasing(x, s);
    } else {
      var rest := InsertByAmount(x, s[1..]);
      InsertKeepsNonIncreasing(x, s[1..]);
      forall j | 0 <= j < |rest|
        ensures s[0].amount >= rest[j].amount
      {
        InsertedFrom(x, s[1..], rest, rest[j]);
      }
      ConsNonIncreasing(s[0], rest);
    }
  }

  /** The book ordered by amount, largest first; among equal amounts the
      earlier level stays first (a stable sort). */
  function ByAmountDesc(s: seq<Level>): (r: seq<Level>)
    ensures multiset(r) == multiset(s)
    ensures |r| == |s|
    ensures NonIncreasingAmount(r)
  {
    if s == [] then []
    else
      assert s == [s[0]] + s[1..];
      InsertKeepsNonIncreasing(s[0], ByAmountDesc(s[1..]));
      InsertByAmount(s[0], ByAmountDesc(s[1..]))
  }

  /** Inserting a level whose rate is below every rate of `s` keeps the
      heavier-first order with its tie-break on the lower rate. */
  lemma {:induction false} InsertKeepsHeavierFirst(x: Level, s: seq<Level>)
    requires HeavierFirst(s)
    requires forall l :: l in s ==> x.rate < l.rate
    ensures HeavierFirst(InsertByAmount(x, s))
  {
    if s == [] || s[0].amount <= x.amount {
      forall j | 0 <= j < |s|
        ensures Outranks(x, s[j])
      {
        assert s[j] in s;
        assert j > 0 ==> Outranks(s[0], s[j]);
      }
      ConsHeavierFirst(x, s);
    } else {
      var rest := InsertByAmount(x, s[1..]);
      forall l | l in s[1..] ensures x.rate < l.rate {
        assert l in s;
      }
      InsertKeepsHeavierFirst(x, s[1..]);
      forall j | 0 <= j < |rest|
        ensures Outranks(s[0], rest[j])
      {
        InsertedFrom(x, s[1..], rest, rest[j]);
        if rest[j] != x {
          var m :| 0 <= m < |s[1..]| && s[1..][m] == rest[j];
          assert s[m + 1] == rest[j];
        }
      }
      ConsHeavierFirst(s[0], rest);
    }
  }

  /** The stable descending sort of a book sorted by rate puts, among equal
      amounts, the lower rate first. */
  lemma {:induction false} ByAmountDescHeavierFirst(s: seq<Level>)
    requires StrictlyAscending(s)
    ensures HeavierFirst(ByAmountDesc(s))
  {
    if s != [] {
      var tail := ByAmountDesc(s[1..]);
      ByAmountDescHeavierFirst(s[1..]);
      forall l | l in tail ensures s[0].rate < l.rate {
        assert l in multiset(s[1..]);
        var m :| 0 <= m < |s[1..]| && s[1..][m] == l;
        assert s[m + 1] == l;
      }
      InsertKeepsHeavierFirst(s[0], tail);
    }
  }

  /** Inserts `x` in front of the first level whose rate is not below its own. */
  function InsertByRate(x: Level, s: seq<Level>): (r: seq<Level>)
    ensures multiset(r) == multiset(s) + multiset{x}
    ensures |r| == |s| + 1
  {
    if s == [] || x.rate <= s[0].rate then [x] + s
    else
      assert s == [s[0]] + s[1..];
      [s[0]] + InsertByRate(x, s[1..])
  }

  /** Insertion by rate keeps a rate-sorted sequence sorted. */
  lemma {:induction false} InsertKeepsAscending(x: Level, s: seq<Level>)
    requires AscendingByRate(s)
    ensures AscendingByRate(InsertByRate(x, s))
  {
    if s == [] || x.rate <= s[0].rate {
      ConsAscendingByRate(x, s);
    } else {
      var rest := InsertByRate(x, s[1..]);
      InsertKeepsAscending(x, s[1..]);
      forall j | 0 <= j < |rest|
        ensures s[0].rate <= rest[j].rate
      {
        InsertedFrom(x, s[1..], rest, rest[j]);
      }
      ConsAscendingByRate(s[0], rest);
    }
  }

  /** `s` re-sorted by rate. */
  function ByRate(s: seq<Level>): (r: seq<Level>)
    ensures multiset(r) == multiset(s)
    ensures |r| == |s|
    ensures AscendingByRate(r)
  {
    if s == [] then []
    else
      assert s == [s[0]] + s[1..];
      InsertKeepsAscending(s[0], ByRate(s[1..]));
      InsertByRate(s[0], ByRate(s[1..]))
  }

  function Min(a: nat, b: nat): nat
  {
    if a <= b then a else b
  }

  /** Every level of `top` weighs at least as much as every level of `book`
      that `top` leaves out (counted with multiplicity). */
  ghost predicate Outweighs(top: seq<Level>, book: seq<Level>)
  {
    forall x, y :: x in top && y in multiset(book) - multiset(top) ==> x.amount >= y.amount
  }

  /** `df.nlargest(count, amount).sort_values(rate)`: the `count` heaviest
      levels (all of them for a smaller book), listed in rate order; every
      level left out weighs no more than any level listed. */
  function TopWalls(book: seq<Level>, count: nat): (top: seq<Level>)
    ensures |top| == Min(count, |book|)
    ensures AscendingByRate(top)
    ensures multiset(top) <= multiset(book)
    ensures Outweighs(top, book)
  {
    var ranked := ByAmountDesc(book);
    var m := Min(count, |book|);
    TopDominates(ranked, m);
    ByRate(ranked[..m])
  }

  /** Re-sorting the first `m` of a heaviest-first ranking keeps them a
      sub-multiset of it, each at least as heavy as every level left out. */
  lemma TopDominates(ranked: seq<Level>, m: nat)
    requires m <= |ranked| && NonIncreasingAmount(ranked)
    ensures multiset(ByRate(ranked[..m])) <= multiset(ranked)
    ensures Outweighs(ByRate(ranked[..m]), ranked)
  {
    var top := ByRate(ranked[..m]);
    TopSplit(ranked, m);
    forall x, y | x in top && y in multiset(ranked) - multiset(top)
      ensures x.amount >= y.amount
    {
      assert x in multiset(top);
      assert x in ranked[..m];
      assert y in ranked[m..];
    }
  }

  /** Cutting a heaviest-first ranking at `m`: the two parts partition it,
      and every level before the cut weighs at least as much as every level after it. */
  lemma TopSplit(ranked: seq<Level>, m: nat)
    requires m <= |ranked| && NonIncreasingAmount(ranked)
    ensures multiset(ranked) - multiset(ranked[..m]) == multiset(ranked[m..])
    ensures forall x, y :: x in ranked[..m] && y in ranked[m..] ==> x.amount >= y.amount
  {
    assert ranked == ranked[..m] + ranked[m..];
    forall x, y | x in ranked[..m] && y in ranked[m..]
      ensures x.amount >= y.amount
    {
      var i :| 0 <= i < m && ranked[i] == x;
      var j :| 0 <= j < |ranked| - m && ranked[m..][j] == y;
      assert ranked[m + j] == y;
    }
  }

  /** In a heavier-first ranking, a level before the cut outranks any level after it. */
  lemma CutOutranks(ranked: seq<Level>, m: nat, x: Level, y: Level)
    requires m <= |ranked| && HeavierFirst(ranked)
    requires x in ranked[..m] && y in ranked[m..]
    ensures Outranks(x, y)
  {
    var i :| 0 <= i < m && ranked[..m][i] == x;
    var j :| 0 <= j < |ranked| - m && ranked[m..][j] == y;
    assert ranked[i] == x && ranked[m + j] == y;
  }

  /** On the source's sorted book the cut also respects `nlargest`'s
      tie-break: a level left out with the same amount as a listed one has a
      higher rate. */
  lemma TopWallsTieBreak(book: seq<Level>, count: nat)
    requires StrictlyAscending(book)
    ensures var top := TopWalls(book, count);
      forall x, y :: x in top && y in multiset(book) - multiset(top) ==> Outranks(x, y)
  {
    var ranked := ByAmountDesc(book);
    var m := Min(count, |book|);
    var top := TopWalls(book, count);
    assert top == ByRate(ranked[..m]);
    TopSplit(ranked, m);
    ByAmountDescHeavierFirst(book);
    forall x, y | x in top && y in multiset(book) - multiset(top)
      ensures Outranks(x, y)
    {
      assert x in multiset(top);
      assert x in multiset(ranked[..m]);
      assert y in multiset(ranked[m..]);
      CutOutranks(ranked, m, x, y);
    }
  }
}
