/** What `display_column` computes for one currency before rendering it:
    the grouped book, the reference rate, the cumulative column, the mean
    volume, the wall, the fishing rate, the two strategy scans and the three
    biggest walls. */
module Dashboard {
  import opened Levels
  import Normalizer
  import Depth
  import Walls
  import Scans
  import Ranking

  /** The figures one column of the dashboard shows for a non-empty book. */
  datatype Analysis = Analysis(
    book: seq<Level>,
    frr: real,
    cumulative: seq<real>,
    meanVolume: real,
    wall: Level,
    fishingRate: real,
    dynamicAverage: real,
    depthAccumulation: real,
    topWalls: seq<Level>)

  /** Runs the analysis on one raw book. An empty grouped book yields None
      (the "loading" notice) rather than figures. */
  method DisplayColumn(raw: seq<Level>) returns (view: Option<Analysis>)
    ensures view.None? <==> forall i :: 0 <= i < |raw| ==> raw[i].amount <= 0.0
    ensures view.Some? ==>
      var a := view.value;
      && a.book == Normalizer.Normalize(raw) && a.book != []
      && a.frr == Normalizer.ReferenceRate(a.book)
      && |a.cumulative| == |a.book|
      && (forall i :: 0 <= i < |a.book| ==> a.cumulative[i] == Depth.DepthAt(a.book, i))
      && a.meanVolume == Depth.MeanAmount(a.book)
      && a.wall == Walls.Wall(a.book, a.frr)
      && a.fishingRate == Walls.MaxRate(a.book)
      && a.dynamicAverage == Scans.DynamicAverage(a.book, Scans.BreakoutFactor)
      && a.depthAccumulation == Scans.DepthAccumulation(a.book, Scans.DepthTarget)
      && a.topWalls == Ranking.TopWalls(a.book, Ranking.WallCount)
    ensures view.Some? ==>
      var a := view.value;
      && a.frr <= a.wall.rate <= a.fishingRate
      && a.dynamicAverage in Rates(a.book)
      && a.depthAccumulation in Rates(a.book)
      && a.cumulative[|a.cumulative| - 1] == Sum(a.book) == Sum(Normalizer.Kept(raw))
  {
    var asks, frr := Normalizer.GetStableData(raw);
    if asks == [] {
      return None;
    }
    var cum := Depth.CumulativeColumn(asks);
    var mean := Depth.MeanAmount(asks);
    var wall := Walls.Wall(asks, frr);
    var fishing := Walls.MaxRate(asks);
    var rateA := Scans.DynamicAverage(asks, Scans.BreakoutFactor);
    var rateB := Scans.DepthAccumulation(asks, Scans.DepthTarget);
    var top3 := Ranking.TopWalls(asks, Ranking.WallCount);
    Walls.LadderOrdered(asks);
    Scans.ScansStayInBook(asks, Scans.BreakoutFactor, Scans.DepthTarget);
    Depth.DepthTotal(asks);
    view := Some(Analysis(asks, frr, cum, mean, wall, fishing, rateA, rateB, top3));
  }
}
