/**
 * The two history views of a service card (frontend/src/App.jsx):
 * UptimeBar shows the latest 30 checks as coloured blocks, oldest first;
 * LatencyChart plots the latest 40 checks, oldest first, with a gap for
 * every DOWN check. The history arrives newest first.
 */
module Windows {
  import opened Common
  import opened Metrics

  const BAR_BLOCKS := 30
  const CHART_POINTS := 40

  /** `[...s].reverse()`: the same elements in the opposite order. */
  function Reverse<T>(s: seq<T>): (r: seq<T>)
    ensures |r| == |s|
    ensures forall i :: 0 <= i < |s| ==> r[i] == s[|s| - 1 - i]
  {
    if |s| == 0 then [] else Reverse(s[1..]) + [s[0]]
  }

  // ------------------------------------------------------------ UptimeBar

  /** `[...history].slice(0, 30).reverse()`: the newest 30 records, oldest first. */
  function UptimeBlocks(h: seq<CheckRecord>): (r: seq<CheckRecord>)
    ensures |r| == Min(BAR_BLOCKS, |h|)
    ensures forall i :: 0 <= i < |r| ==> r[i] == h[|r| - 1 - i]
    ensures |h| > 0 ==> r[|r| - 1] == h[0]
  {
    Reverse(h[..Min(BAR_BLOCKS, |h|)])
  }

  /** The colour of one block: green for UP, red otherwise. */
  function BlockColor(r: CheckRecord): (c: Color)
    ensures c == Green <==> IsUp(r)
    ensures c != Amber
  {
    if IsUp(r) then Green else Red
  }

  /** Newest-first history (non-increasing timestamps) is drawn oldest to newest. */
  predicate NewestFirst(h: seq<CheckRecord>)
  {
    forall i, j :: 0 <= i < j < |h| ==> h[j].checkedAt <= h[i].checkedAt
  }

  predicate OldestFirst(h: seq<CheckRecord>)
  {
    forall i, j :: 0 <= i < j < |h| ==> h[i].checkedAt <= h[j].checkedAt
  }

  lemma UptimeBlocksChronological(h: seq<CheckRecord>)
    requires NewestFirst(h)
    ensures OldestFirst(UptimeBlocks(h))
  {
    var r := UptimeBlocks(h);
    forall i, j | 0 <= i < j < |r|
      ensures r[i].checkedAt <= r[j].checkedAt
    {
      assert r[i] == h[|r| - 1 - i] && r[j] == h[|r| - 1 - j];
    }
  }

  // --------------------------------------------------------- LatencyChart

  /** One plotted point: the check's time and its latency in tenths of a millisecond, or a gap. */
  datatype ChartPoint = ChartPoint(checkedAt: int, tenthsMs: Option<int>)

  /** `ms: UP ? +(latency * 1000).toFixed(1) : null`. */
  function Plot(r: CheckRecord): (p: ChartPoint)
    ensures p.checkedAt == r.checkedAt
    ensures p.tenthsMs.None? <==> !IsUp(r)
    ensures p.tenthsMs.Some? && r.latency >= 0.0 ==>
              0 <= p.tenthsMs.value
              && r.latency * 10000.0 - 0.5 < p.tenthsMs.value as real <= r.latency * 10000.0 + 0.5
    ensures p.tenthsMs.Some? && r.latency < 0.0 ==>
              p.tenthsMs.value <= 0
              && r.latency * 10000.0 - 0.5 <= p.tenthsMs.value as real < r.latency * 10000.0 + 0.5
  {
    ChartPoint(r.checkedAt, if IsUp(r) then Some(ToFixedUnits(r.latency * 1000.0, 10)) else None)
  }

  /** `[...history].reverse().slice(-40).map(...)`: the newest 40 records, oldest first, plotted. */
  function LatencySeries(h: seq<CheckRecord>): (r: seq<ChartPoint>)
    ensures |r| == Min(CHART_POINTS, |h|)
    ensures forall i :: 0 <= i < |r| ==> r[i] == Plot(h[|r| - 1 - i])
  {
    var rev := Reverse(h);
    var tail := rev[|h| - Min(CHART_POINTS, |h|)..];
    seq(|tail|, i requires 0 <= i < |tail| => Plot(tail[i]))
  }

  /**
   * The chart and the bar end on the same checks: the last |bar| points of
   * the chart plot the bar's blocks, in the same order.
   */
  lemma ChartEndsWithBar(h: seq<CheckRecord>)
    ensures var bar, pts := UptimeBlocks(h), LatencySeries(h);
      |bar| <= |pts|
      && forall i :: 0 <= i < |bar| ==> pts[|pts| - |bar| + i] == Plot(bar[i])
  {
  }

  /** The chart has a gap exactly where the bar has a red block. */
  lemma ChartGapsAreRedBlocks(h: seq<CheckRecord>, i: int)
    requires 0 <= i < |UptimeBlocks(h)|
    ensures var bar, pts := UptimeBlocks(h), LatencySeries(h);
      pts[|pts| - |bar| + i].tenthsMs.None? <==> BlockColor(bar[i]) == Red
  {
    ChartEndsWithBar(h);
  }
}
