/** The loop that queries the propagation-delay histogram over consecutive windows. */
module QueryWindows {

  const SECOND := 1_000_000_000
  const QUERY_INTERVAL := 600 * SECOND

  datatype Window = Window(from: int, to: int)

  /** No gap and no overlap after window i. */
  predicate Adjacent(ws: seq<Window>, i: nat) {
    i + 1 < |ws| && ws[i].to == ws[i + 1].from
  }

  /** Consecutive windows from start to end, each no longer than the interval. */
  ghost predicate Tiles(ws: seq<Window>, start: int, end: int) {
    && ws != [] && ws[0].from == start && ws[|ws| - 1].to == end
    && (forall i: nat {:trigger Adjacent(ws, i)} :: i + 1 < |ws| ==> Adjacent(ws, i))
    && (forall i :: 0 <= i < |ws| ==> 0 <= ws[i].to - ws[i].from <= QUERY_INTERVAL)
    && (forall i :: 0 <= i < |ws| - 1 ==> ws[i].to - ws[i].from == QUERY_INTERVAL)
    && (start < end ==> forall i :: 0 <= i < |ws| ==> ws[i].from < ws[i].to)
  }

  /** Whole seconds, as the query string prints a duration. */
  function PrintedSeconds(d: int): (s: int)
    ensures d >= 0 ==> s * SECOND <= d < s * SECOND + SECOND
    ensures d <= 0 ==> s * SECOND - SECOND < d <= s * SECOND
  {
    if d >= 0 then d / SECOND else -((-d) / SECOND)
  }

  ghost function TotalPrinted(ws: seq<Window>): int {
    if ws == [] then 0
    else TotalPrinted(ws[..|ws| - 1]) + PrintedSeconds(ws[|ws| - 1].to - ws[|ws| - 1].from)
  }

  /** Number of windows needed: at least one. */
  function WindowsNeeded(start: int, end: int): int
    requires start <= end
  {
    if start == end then 1 else (end - start + QUERY_INTERVAL - 1) / QUERY_INTERVAL
  }

  /** The query loop; each window is one query. */
  method QueryLoop(start: int, end: int) returns (ws: seq<Window>)
    ensures start <= end ==> Tiles(ws, start, end)
    ensures start > end ==> ws == [Window(start, end)]
  {
    var prev, curr := start, start + QUERY_INTERVAL;
    ws := [];
    while true
      invariant curr == prev + QUERY_INTERVAL
      invariant ws == [] ==> prev == start
      invariant start > end ==> ws == []
      invariant |ws| > 0 ==> ws[0].from == start && ws[|ws| - 1].to == prev && prev < end
      invariant forall i: nat {:trigger Adjacent(ws, i)} :: i + 1 < |ws| ==> Adjacent(ws, i)
      invariant forall i :: 0 <= i < |ws| ==> ws[i].to - ws[i].from == QUERY_INTERVAL
      decreases end - prev
    {
      if curr > end {
        curr := end;
      }
      ghost var before := ws;
      ws := ws + [Window(prev, curr)];
      forall i: nat | i + 1 < |ws| ensures Adjacent(ws, i) {
        assert i + 1 < |before| ==> Adjacent(before, i);
      }
      if curr == end { break; }
      prev := curr;
      curr := curr + QUERY_INTERVAL;
    }
  }

  /** All windows but the last are full, so the first n of them end n intervals after the start. */
  lemma {:induction false} FullWindows(ws: seq<Window>, start: int, end: int, n: nat)
    requires Tiles(ws, start, end) && n < |ws|
    ensures ws[n].from == start + n * QUERY_INTERVAL
    ensures TotalPrinted(ws[..n]) == n * 600
  {
    if n > 0 {
      FullWindows(ws, start, end, n - 1);
      assert Adjacent(ws, n - 1);
      assert ws[..n][..n - 1] == ws[..n - 1];
    }
  }

  /** How many queries a tiling takes. */
  lemma QueryCount(ws: seq<Window>, start: int, end: int)
    requires start <= end && Tiles(ws, start, end)
    ensures |ws| == WindowsNeeded(start, end)
  {
    FullWindows(ws, start, end, |ws| - 1);
  }

  /** The printed durations lose less than a second overall. */
  lemma PrintedTotal(ws: seq<Window>, start: int, end: int)
    requires start <= end && Tiles(ws, start, end)
    ensures end - start - SECOND < TotalPrinted(ws) * SECOND <= end - start
  {
    var n := |ws| - 1;
    FullWindows(ws, start, end, n);
    WholeSeconds(ws[n].to - ws[n].from);
  }

  lemma WholeSeconds(d: nat)
    ensures d - SECOND < PrintedSeconds(d) * SECOND <= d
  {
  }
}
