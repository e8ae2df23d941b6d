/** The analysis half of `get_stable_data`: keep the lending side of the raw
    book, group the entries by exact rate summing their amounts, order the
    groups by rate, and take the lowest rate as the reference rate (FRR). */
module Normalizer {
  import opened Levels

  /** The entries of the raw book with `amount > 0`, in input order. */
  function Kept(raw: seq<Level>): (kept: seq<Level>)
    ensures |kept| <= |raw|
    ensures AllPositive(kept)
  {
    if raw == [] then []
    else
      var last := raw[|raw| - 1];
      Kept(raw[..|raw| - 1]) + (if last.amount > 0.0 then [last] else [])
  }

  /** The kept entries are exactly the raw entries with a positive amount. */
  lemma {:induction false} KeptMembers(raw: seq<Level>, e: Level)
    ensures e in Kept(raw) <==> e in raw && e.amount > 0.0
  {
    if raw != [] {
      var last := raw[|raw| - 1];
      assert raw == raw[..|raw| - 1] + [last];
      KeptMembers(raw[..|raw| - 1], e);
    }
  }

  /** Each raw entry with a positive amount is kept as often as it occurs in
      the raw book; every other entry is dropped. */
  lemma {:induction false} KeptCounts(raw: seq<Level>, e: Level)
    ensures multiset(Kept(raw))[e] == if e.amount > 0.0 then multiset(raw)[e] else 0
  {
    if raw != [] {
      var init, last := raw[..|raw| - 1], raw[|raw| - 1];
      assert raw == init + [last];
      KeptCounts(init, e);
      assert multiset(raw) == multiset(init) + multiset{last};
    }
  }

  /** Adds one kept entry to a book that is grouped by rate: its amount joins
      the level of the same rate, or it becomes a new level in rate order. */
  function Merge(book: seq<Level>, e: Level): seq<Level>
  {
    if book == [] then [e]
    else if e.rate < book[0].rate then [e] + book
    else if e.rate == book[0].rate then [Level(e.rate, book[0].amount + e.amount)] + book[1..]
    else [book[0]] + Merge(book[1..], e)
  }

  /** Merging an entry raises the total by its amount, raises the amount at
      its rate and at no other, adds its rate to the rates, and grows the
      book by at most one level. */
  lemma {:induction false} MergeSums(book: seq<Level>, e: Level)
    ensures Sum(Merge(book, e)) == Sum(book) + e.amount
    ensures forall r :: AmountAt(Merge(book, e), r) == AmountAt(book, r) + (if r == e.rate then e.amount else 0.0)
    ensures Rates(Merge(book, e)) == Rates(book) + {e.rate}
    ensures |book| <= |Merge(book, e)| <= |book| + 1
  {
    if book != [] {
      if e.rate < book[0].rate {
        assert ([e] + book)[1..] == book;
      } else if e.rate == book[0].rate {
        assert ([Level(e.rate, book[0].amount + e.amount)] + book[1..])[1..] == book[1..];
      } else {
        var rest := Merge(book[1..], e);
        MergeSums(book[1..], e);
        assert ([book[0]] + rest)[1..] == rest;
      }
    }
  }

  /** A level below every rate of a strictly ascending book can head it. */
  lemma ConsAscending(x: Level, s: seq<Level>)
    requires StrictlyAscending(s)
    requires forall j :: 0 <= j < |s| ==> x.rate < s[j].rate
    ensures StrictlyAscending([x] + s)
  {
  }

  /** Merging keeps the book strictly ascending and its amounts positive. */
  lemma {:induction false} MergeKeepsShape(book: seq<Level>, e: Level)
    requires StrictlyAscending(book)
    ensures StrictlyAscending(Merge(book, e))
    ensures AllPositive(book) && e.amount > 0.0 ==> AllPositive(Merge(book, e))
  {
    if book == [] {
    } else if e.rate < book[0].rate {
      ConsAscending(e, book);
    } else if e.rate == book[0].rate {
      ConsAscending(Level(e.rate, book[0].amount + e.amount), book[1..]);
    } else {
      var rest := Merge(book[1..], e);
      MergeKeepsShape(book[1..], e);
      MergeSums(book[1..], e);
      forall j | 0 <= j < |rest|
        ensures book[0].rate < rest[j].rate
      {
        RatesMembership(rest, rest[j].rate);
        if rest[j].rate != e.rate {
          RatesMembership(book[1..], rest[j].rate);
        }
      }
      ConsAscending(book[0], rest);
    }
  }

  /** `book` holds the kept entries of `raw` grouped by exact rate: strictly
      ascending, with exactly the kept rates and, at each of them, the sum of
      the kept amounts at that rate. */
  ghost predicate IsGroupingOf(book: seq<Level>, raw: seq<Level>)
  {
    && StrictlyAscending(book)
    && Rates(book) == Rates(Kept(raw))
    && forall r :: AmountAt(book, r) == AmountAt(Kept(raw), r)
  }

  /** The grouped book: the kept entries folded into it one by one in input order. */
  function Normalize(raw: seq<Level>): (book: seq<Level>)
    ensures IsGroupingOf(book, raw)
    ensures AllPositive(book)
    ensures Sum(book) == Sum(Kept(raw))
  {
    if raw == [] then []
    else
      var last := raw[|raw| - 1];
      var prev := Normalize(raw[..|raw| - 1]);
      KeptStep(raw, Kept(raw[..|raw| - 1]), last);
      if last.amount > 0.0 then
        MergeKeepsShape(prev, last);
        MergeSums(prev, last);
        Merge(prev, last)
      else prev
  }

  /** How the kept entries, and the sums over them, grow by the last raw entry. */
  lemma KeptStep(raw: seq<Level>, prefix: seq<Level>, last: Level)
    requires raw != [] && last == raw[|raw| - 1] && prefix == Kept(raw[..|raw| - 1])
    ensures Kept(raw) == (if last.amount > 0.0 then prefix + [last] else prefix)
    ensures Sum(Kept(raw)) == Sum(prefix) + (if last.amount > 0.0 then last.amount else 0.0)
    ensures Rates(Kept(raw)) == Rates(prefix) + (if last.amount > 0.0 then {last.rate} else {})
    ensures forall r ::
              AmountAt(Kept(raw), r) ==
              AmountAt(prefix, r) + (if last.amount > 0.0 && r == last.rate then last.amount else 0.0)
  {
    assert prefix + [] == prefix;
    if last.amount > 0.0 {
      SumAppend(prefix, [last]);
      RatesAppend(prefix, [last]);
      forall r
        ensures AmountAt(prefix + [last], r) == AmountAt(prefix, r) + (if r == last.rate then last.amount else 0.0)
      {
        AmountAtAppend(prefix, [last], r);
      }
    }
  }

  /** In a strictly ascending book the first rate is below every later one. */
  lemma HeadBelowRest(s: seq<Level>)
    requires StrictlyAscending(s) && s != []
    ensures forall r :: r in Rates(s[1..]) ==> s[0].rate < r
  {
    forall r | r in Rates(s[1..])
      ensures s[0].rate < r
    {
      RatesMembership(s[1..], r);
    }
  }

  /** A strictly ascending book is determined by its rates and by how much it
      offers at each rate. */
  lemma {:induction false} BookDeterminedByAmounts(a: seq<Level>, b: seq<Level>)
    requires StrictlyAscending(a) && StrictlyAscending(b)
    requires Rates(a) == Rates(b)
    requires forall r :: AmountAt(a, r) == AmountAt(b, r)
    ensures a == b
  {
    RatesEmpty(a);
    RatesEmpty(b);
    if a != [] && b != [] {
      HeadBelowRest(a);
      HeadBelowRest(b);
      assert a[0].rate == b[0].rate by {
        assert a[0].rate in Rates(b);
        assert b[0].rate in Rates(a);
      }
      var r0 := a[0].rate;
      AmountAtAbsent(a[1..], r0);
      AmountAtAbsent(b[1..], r0);
      assert AmountAt(a, r0) == a[0].amount;
      assert AmountAt(b, r0) == b[0].amount;
      assert Rates(a[1..]) == Rates(a) - {r0};
      assert Rates(b[1..]) == Rates(b) - {r0};
      forall r
        ensures AmountAt(a[1..], r) == AmountAt(b[1..], r)
      {
        assert AmountAt(a, r) == AmountAt(b, r);
      }
      BookDeterminedByAmounts(a[1..], b[1..]);
      assert a == [a[0]] + a[1..];
      assert b == [b[0]] + b[1..];
    }
  }

  /** The grouped book is the one and only strictly ascending book holding,
      at each kept rate, the sum of the kept amounts at that rate. */
  lemma NormalizeCanonical(raw: seq<Level>, book: seq<Level>)
    ensures book == Normalize(raw) <==> IsGroupingOf(book, raw)
  {
    if IsGroupingOf(book, raw) {
      BookDeterminedByAmounts(book, Normalize(raw));
    }
  }

  /** Every rate of the grouped book comes from a kept entry, and every kept entry's rate is in it. */
  lemma NormalizeRates(raw: seq<Level>, r: real)
    ensures r in Rates(Normalize(raw)) <==> exists e :: e in raw && e.amount > 0.0 && e.rate == r
  {
    var kept := Kept(raw);
    RatesMembership(kept, r);
    if exists e :: e in raw && e.amount > 0.0 && e.rate == r {
      var e :| e in raw && e.amount > 0.0 && e.rate == r;
      KeptMembers(raw, e);
      var i :| 0 <= i < |kept| && kept[i] == e;
    }
    if r in Rates(kept) {
      var i :| 0 <= i < |kept| && kept[i].rate == r;
      KeptMembers(raw, kept[i]);
    }
  }

  /** Mass conservation: the grouped book offers exactly the total positive amount of the raw book. */
  lemma NormalizeConservesMass(raw: seq<Level>)
    ensures Sum(Normalize(raw)) == Sum(Kept(raw))
    ensures Normalize(raw) == [] <==> forall i :: 0 <= i < |raw| ==> raw[i].amount <= 0.0
  {
    RatesEmpty(Normalize(raw));
    RatesEmpty(Kept(raw));
    if Kept(raw) != [] {
      KeptMembers(raw, Kept(raw)[0]);
    } else {
      forall k | 0 <= k < |raw|
        ensures raw[k].amount <= 0.0
      {
        KeptMembers(raw, raw[k]);
      }
    }
  }

  /** The reference rate: the head of the queue, or 0 for an empty book. */
  function ReferenceRate(asks: seq<Level>): real
  {
    if asks == [] then 0.0 else asks[0].rate
  }

  /** The reference rate is the lowest rate of a non-empty sorted book, and 0 for an empty one. */
  lemma ReferenceRateIsLowest(asks: seq<Level>)
    requires StrictlyAscending(asks)
    ensures asks == [] ==> ReferenceRate(asks) == 0.0
    ensures asks != [] ==> ReferenceRate(asks) in Rates(asks)
    ensures forall i :: 0 <= i < |asks| ==> ReferenceRate(asks) <= asks[i].rate
  {
  }

  /** One grouping step by scan-and-insert on a sorted book: find the first level
      whose rate is not below the entry's, then add to it or insert before it. */
  method AddLevel(book: seq<Level>, e: Level) returns (merged: seq<Level>)
    ensures merged == Merge(book, e)
  {
    var j := 0;
    while j < |book| && book[j].rate < e.rate
      invariant 0 <= j <= |book|
      invariant forall k :: 0 <= k < j ==> book[k].rate < e.rate
    {
      j := j + 1;
    }
    if j < |book| && book[j].rate == e.rate {
      merged := book[..j] + [Level(e.rate, book[j].amount + e.amount)] + book[j + 1..];
    } else {
      merged := book[..j] + [e] + book[j..];
    }
    MergeAt(book, e, j);
  }

  /** Levels below the entry's rate are passed over unchanged. */
  lemma {:induction false} MergeSkips(p: seq<Level>, rest: seq<Level>, e: Level)
    requires forall k :: 0 <= k < |p| ==> p[k].rate < e.rate
    ensures Merge(p + rest, e) == p + Merge(rest, e)
  {
    if p == [] {
      assert p + rest == rest;
    } else {
      assert (p + rest)[1..] == p[1..] + rest;
      MergeSkips(p[1..], rest, e);
      assert p + Merge(rest, e) == [p[0]] + (p[1..] + Merge(rest, e));
    }
  }

  /** Merge acts at the first level whose rate is not below the entry's. */
  lemma MergeAt(book: seq<Level>, e: Level, j: nat)
    requires j <= |book|
    requires forall k :: 0 <= k < j ==> book[k].rate < e.rate
    requires j < |book| ==> book[j].rate >= e.rate
    ensures j < |book| && book[j].rate == e.rate ==>
      Merge(book, e) == book[..j] + [Level(e.rate, book[j].amount + e.amount)] + book[j + 1..]
    ensures !(j < |book| && book[j].rate == e.rate) ==>
      Merge(book, e) == book[..j] + [e] + book[j..]
  {
    assert book == book[..j] + book[j..];
    MergeSkips(book[..j], book[j..], e);
    if j < |book| {
      assert book[j..][1..] == book[j + 1..];
    }
  }

  /** Normalize grows by one raw entry at a time. */
  lemma NormalizeStep(raw: seq<Level>, i: nat)
    requires i < |raw|
    ensures Normalize(raw[..i + 1]) ==
      if raw[i].amount > 0.0 then Merge(Normalize(raw[..i]), raw[i]) else Normalize(raw[..i])
  {
    assert raw[..i + 1][..i] == raw[..i];
  }

  /** get_stable_data after the fetch: drop the non-lending entries, group the
      rest by rate in input order, and read the reference rate off the head. */
  method GetStableData(raw: seq<Level>) returns (asks: seq<Level>, frr: real)
    ensures asks == Normalize(raw)
    ensures StrictlyAscending(asks) && AllPositive(asks)
    ensures frr == ReferenceRate(asks)
    ensures asks == [] <==> forall i :: 0 <= i < |raw| ==> raw[i].amount <= 0.0
  {
    asks, frr := [], 0.0;
    var i := 0;
    while i < |raw|
      invariant 0 <= i <= |raw|
      invariant asks == Normalize(raw[..i])
    {
      NormalizeStep(raw, i);
      if raw[i].amount > 0.0 {
        asks := AddLevel(asks, raw[i]);
      }
      i := i + 1;
    }
    assert raw[..i] == raw;
    if asks != [] {
      frr := asks[0].rate;
    }
    NormalizeConservesMass(raw);
  }
}
