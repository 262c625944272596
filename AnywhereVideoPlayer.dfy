/**
 * AnywhereVideoPlayer.jsx: the controller with four hotspots whose
 * placement turns the whole screen into the play button.
 */
module AnywhereVideoPlayer {
  import opened Wrappers
  import opened Hotspots
  import opened Session
  import opened TimeFormat

  /** The `location` of every entry: a transparent full-screen button. */
  const FullScreen: Placement :=
    Placement([("width", "100vw"), ("height", "100vh"), ("top", "0%"), ("color", "transparent")])

  /** The `timestamps` constant: pauses at 137, 271, 399 and 529 seconds. */
  const Timestamps: seq<Hotspot> :=
    [Hotspot(137.0, FullScreen), Hotspot(271.0, FullScreen), Hotspot(399.0, FullScreen), Hotspot(529.0, FullScreen)]

  /** The times strictly increase and lie more than a second apart. */
  lemma TimestampsSpaced()
    ensures Spaced(Timestamps)
    ensures forall i, j :: 0 <= i < j < |Timestamps| ==> Timestamps[i].time < Timestamps[j].time
  {
  }

  /**
   * While playing, a position matching entry `i` pauses there: list order
   * decides nothing, the button covers the screen, and `completed` stays
   * untouched.
   */
  lemma CheckTimeAtHotspot(s: State, pos: real, i: nat)
    requires s.isPlaying && s.timestamps == Timestamps
    requires i < |Timestamps| && Matches(Timestamps[i], pos, s.lastPausedTimestamp)
    ensures TimeUpdate(Anywhere, s, pos) ==
      s.(isPlaying := false, showControls := false, playButton := FullScreen, lastPausedTimestamp := Some(pos))
  {
    TimestampsSpaced();
    SpacedFindIsOnlyMatch(Timestamps, pos, s.lastPausedTimestamp, [], i);
  }

  /** Under an hour the display is `MM:SS`: five characters, minutes then seconds. */
  lemma FormatTimeUnderAnHour(seconds: int)
    requires 0 <= seconds < 3600
    ensures |FormatTime(seconds)| == 5 && FormatTime(seconds)[2] == ':'
    ensures ParseClock(FormatTime(seconds)) == Some(Clock(0, seconds / 60, seconds % 60))
  {
    assert Hours(seconds) == 0 && Minutes(seconds) == seconds / 60;
    FormatParseRoundTrip(seconds);
  }
}
