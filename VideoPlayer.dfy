/**
 * VideoPlayer.jsx: the controller with a fixed list of three hotspots, no
 * `completed` list and no limit on seeking.
 */
module VideoPlayer {
  import opened Wrappers
  import opened Hotspots
  import opened Session
  import opened TimeFormat

  /** The `timestamps` constant: pauses at 10, 20 and 30 seconds. */
  const Timestamps: seq<Hotspot> := [
    Hotspot(10.0, Placement([("top", "50%"), ("left", "70%"), ("color", "Green")])),
    Hotspot(20.0, Placement([("top", "30%"), ("left", "30%"), ("color", "Red")])),
    Hotspot(30.0, Placement([("bottom", "0%"), ("left", "")]))
  ]

  lemma TimestampsSpaced()
    ensures Spaced(Timestamps)
  {
  }

  /**
   * The windows around 10, 20 and 30 are disjoint, so at most one entry
   * matches any position and `find` returns that one.
   */
  lemma OnlyOneHotspotMatches(pos: real, last: Option<real>, i: nat)
    requires i < |Timestamps| && Matches(Timestamps[i], pos, last)
    ensures FindFirst(Timestamps, pos, last, []) == Some(i)
  {
    TimestampsSpaced();
    SpacedFindIsOnlyMatch(Timestamps, pos, last, [], i);
  }

  /**
   * `checkTime` has no `completed` check: while playing it pauses exactly
   * when some entry matches, whatever has fired before, and leaves
   * `completed` alone.
   */
  lemma CheckTimeIgnoresCompleted(s: State, pos: real)
    requires s.isPlaying
    ensures TimeUpdate(Basic, s, pos).completed == s.completed
    ensures !TimeUpdate(Basic, s, pos).isPlaying <==>
      exists i :: 0 <= i < |s.timestamps| && Matches(s.timestamps[i], pos, s.lastPausedTimestamp)
  {
    if !TimeUpdate(Basic, s, pos).isPlaying {
      var i := FiredIndex(Basic, s, pos).value;
      assert Matches(s.timestamps[i], pos, s.lastPausedTimestamp);
    }
  }

  /** Rewind, fast-forward and the slider move the playhead with no clamp. */
  lemma SeeksUnclamped(mediaTime: real, duration: real, value: real, furthestWatched: real)
    ensures RewindTarget(mediaTime) == mediaTime - 10.0
    ensures ForwardTarget(Basic, mediaTime, furthestWatched) == mediaTime + 10.0
    ensures SliderTarget(Basic, duration, value, furthestWatched) == duration * value / 100.0
  {
  }

  /** The time display shows the hours exactly when they are not 0, as `H:MM:SS`. */
  lemma FormatTimeShowsHoursWhenNonZero(seconds: int)
    ensures |FormatTime(seconds)| == 5 <==> (seconds / 3600) % 24 == 0
    ensures ParseClock(FormatTime(seconds)).Some?
    ensures ParseClock(FormatTime(seconds)).Some? ==> ParseClock(FormatTime(seconds)).value.hours == (seconds / 3600) % 24
    ensures ParseClock(FormatTime(seconds)).Some? ==> ParseClock(FormatTime(seconds)).value.minutes == (seconds / 60) % 60
    ensures ParseClock(FormatTime(seconds)).Some? ==> ParseClock(FormatTime(seconds)).value.seconds == seconds % 60
  {
    FormatParseRoundTrip(seconds);
  }

  /** Three displays worked out: the start, one minute in, and one hour in. */
  lemma FormatTimeAtStart()
    ensures FormatTime(0) == "00:00"
  {
    assert Hours(0) == 0 && Minutes(0) == 0 && Seconds(0) == 0;
    assert Decimal(0) == "0" && TwoDigits(0) == "00";
    assert FormatTime(0) == "00" + ":" + "00";
  }

  lemma FormatTimeAtOneMinute()
    ensures FormatTime(61) == "01:01"
  {
    assert Hours(61) == 0 && Minutes(61) == 1 && Seconds(61) == 1;
    assert Decimal(1) == "1" && TwoDigits(1) == "01";
    assert FormatTime(61) == "01" + ":" + "01";
  }

  lemma FormatTimeAtOneHour()
    ensures FormatTime(3661) == "1:01:01"
  {
    assert Hours(3661) == 1 && Minutes(3661) == 1 && Seconds(3661) == 1;
    assert Decimal(1) == "1" && TwoDigits(1) == "01";
    assert FormatTime(3661) == "1" + ":" + "01" + ":" + "01";
  }

  /**
   * A seek re-arms detection: once `lastPausedTimestamp` is cleared, a
   * position past the first second inside a hotspot's window pauses there,
   * even when that hotspot is the one that paused playback last.
   */
  lemma SeekLetsSameHotspotFireAgain(s: State, p: real, q: real, i: nat)
    requires s.isPlaying && s.timestamps == Timestamps && i < |Timestamps|
    requires s.lastPausedTimestamp == Some(p) && InWindow(Timestamps[i], p)
    requires InWindow(Timestamps[i], q) && q > ReArmGap
    ensures TimeUpdate(Basic, s, q) == s
    ensures TimeUpdate(Basic, Rearm(s), q) ==
      s.(isPlaying := false, showControls := false, playButton := Timestamps[i].location, lastPausedTimestamp := Some(q))
  {
    forall j | 0 <= j < |Timestamps|
      ensures !Matches(Timestamps[j], q, Some(p))
    {
      if InWindow(Timestamps[j], q) {
        OnlyOneHotspotMatches(q, None, i);
        TimestampsSpaced();
        SpacedWindowsDisjoint(Timestamps, q, i, j);
        ReArmGapBlocksRefire(Timestamps[i], p, q);
      }
    }
    OnlyOneHotspotMatches(q, None, i);
  }
}
