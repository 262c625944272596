/**
 * Hotspot records and the matching rule that every player component applies
 * on a media time-update: the first hotspot, in list order, whose time lies
 * within half a second of the playhead, provided that more than one second
 * has passed since the last auto-pause (and, in the dynamic player, whose
 * time has not fired before).
 */
module Hotspots {
  import opened Wrappers

  /**
   * A placement is the CSS style object a hotspot carries (`location`), as
   * property/value pairs in declaration order. The controller never looks
   * inside it; it only copies it into the play button's style.
   */
  datatype Placement = Placement(style: seq<(string, string)>)

  /** `{ bottom: "0%", left: "" }`: where the play button sits normally. */
  const DefaultPlacement: Placement := Placement([("bottom", "0%"), ("left", "")])

  /** `{ time, location }`: pause at `time` seconds and move the play button to `location`. */
  datatype Hotspot = Hotspot(time: real, location: Placement)

  /** Half-width of the window around a hotspot's time in which it can fire. */
  const Tolerance: real := 0.5

  /** The playhead must be more than this far past the last auto-pause. */
  const ReArmGap: real := 1.0

  function Abs(x: real): (r: real)
    ensures r >= 0.0 && (r == x || r == -x)
  {
    if x < 0.0 then -x else x
  }

  /** `Math.abs(ts.time - currentTime) <= 0.5` */
  predicate InWindow(h: Hotspot, pos: real) {
    Abs(h.time - pos) <= Tolerance
  }

  /**
   * The number JavaScript subtracts when `lastPausedTimestamp` is used in
   * arithmetic: `null` converts to 0, so "never paused" means "paused at 0".
   */
  function LastOrZero(last: Option<real>): real {
    if last.Some? then last.value else 0.0
  }

  /** `currentTime - lastPausedTimestamp > 1` */
  predicate Armed(pos: real, last: Option<real>) {
    pos - LastOrZero(last) > ReArmGap
  }

  /** The `find` predicate of VideoPlayer.jsx and AnywhereVideoPlayer.jsx. */
  predicate Matches(h: Hotspot, pos: real, last: Option<real>): (b: bool)
    ensures b <==> h.time - Tolerance <= pos <= h.time + Tolerance && pos > LastOrZero(last) + ReArmGap
  {
    InWindow(h, pos) && Armed(pos, last)
  }

  /**
   * The `find` predicate of DynamicVideoPlayer.jsx, which also skips times
   * already in `completed`; with `completed == []` it is `Matches`.
   */
  predicate Eligible(h: Hotspot, pos: real, last: Option<real>, completed: seq<real>): (b: bool)
    ensures b ==> Matches(h, pos, last)
    ensures completed == [] ==> (b <==> Matches(h, pos, last))
    ensures (exists k :: 0 <= k < |completed| && completed[k] == h.time) ==> !b
  {
    Matches(h, pos, last) && h.time !in completed
  }

  /**
   * `timestamps.find(...)`, giving the index of the entry found: the least
   * index whose entry is eligible, or None when no entry is.
   */
  function FindFirst(hs: seq<Hotspot>, pos: real, last: Option<real>, completed: seq<real>): (r: Option<nat>)
    ensures r.Some? ==> r.value < |hs| && Eligible(hs[r.value], pos, last, completed)
    ensures r.Some? ==> forall j :: 0 <= j < r.value ==> !Eligible(hs[j], pos, last, completed)
    ensures r.None? <==> forall j :: 0 <= j < |hs| ==> !Eligible(hs[j], pos, last, completed)
  {
    if hs == [] then None
    else if Eligible(hs[0], pos, last, completed) then Some(0)
    else
      match FindFirst(hs[1..], pos, last, completed)
      case Some(k) => Some(k + 1)
      case None => None
  }

  /** Hotspot times strictly increase along the list and any two are more than a second apart. */
  ghost predicate Spaced(hs: seq<Hotspot>) {
    forall i, j :: 0 <= i < j < |hs| ==> hs[j].time - hs[i].time > ReArmGap
  }

  /**
   * While nothing has paused yet, a hotspot at or before half a second can
   * never fire: every position in its window is at most one second, and
   * `null` reads as 0.
   */
  lemma NullLastNeverArmsEarlyHotspot(h: Hotspot, pos: real)
    requires h.time <= Tolerance
    ensures !Matches(h, pos, None)
  {
  }

  /**
   * Once a hotspot has paused playback at `p`, no position in its own
   * window is armed again against `p`: the window is one second wide.
   */
  lemma ReArmGapBlocksRefire(h: Hotspot, p: real, q: real)
    requires InWindow(h, p) && InWindow(h, q)
    ensures !Armed(q, Some(p))
  {
  }

  /** Spaced hotspots have pairwise disjoint windows. */
  lemma SpacedWindowsDisjoint(hs: seq<Hotspot>, pos: real, i: nat, j: nat)
    requires Spaced(hs) && i < |hs| && j < |hs|
    requires InWindow(hs[i], pos) && InWindow(hs[j], pos)
    ensures i == j
  {
  }

  /**
   * For spaced hotspots the list order never decides anything: whichever
   * entry is eligible is the one `find` returns.
   */
  lemma SpacedFindIsOnlyMatch(hs: seq<Hotspot>, pos: real, last: Option<real>, completed: seq<real>, i: nat)
    requires Spaced(hs) && i < |hs| && Eligible(hs[i], pos, last, completed)
    ensures FindFirst(hs, pos, last, completed) == Some(i)
  {
    var r := FindFirst(hs, pos, last, completed);
    SpacedWindowsDisjoint(hs, pos, i, r.value);
  }
}
