/**
 * DynamicVideoPlayer.jsx: the controller with a fetched hotspot list, a
 * `completed` list so that each hotspot time fires once, a `furthestWatched`
 * mark that caps forward seeks, and an ArrowRight key that resumes from a
 * hotspot pause.
 */
module DynamicVideoPlayer {
  import opened Wrappers
  import opened Hotspots
  import opened Session

  /**
   * Each hotspot time fires at most once per session, whatever seeks occur:
   * `completed` grows by exactly the times fired, none of which was in it
   * before, and it never holds a time twice.
   */
  lemma {:induction false} FiresEachTimeOnce(s: State, evs: seq<Event>)
    requires NoDuplicates(s.completed)
    ensures Run(Dynamic, s, evs).completed == s.completed + Firings(Dynamic, s, evs)
    ensures NoDuplicates(Run(Dynamic, s, evs).completed)
    ensures forall k :: 0 <= k < |Firings(Dynamic, s, evs)| ==> Firings(Dynamic, s, evs)[k] !in s.completed
    decreases |evs|
  {
    RunCompleted(s, evs);
    if evs != [] {
      var s' := Step(Dynamic, s, evs[0]);
      var f := Fired(Dynamic, s, evs[0]);
      StepCompleted(Dynamic, s, evs[0]);
      assert s'.completed == s.completed + f;
      assert NoDuplicates(s'.completed);
      FiresEachTimeOnce(s', evs[1..]);
      var rest := Firings(Dynamic, s', evs[1..]);
      assert Firings(Dynamic, s, evs) == f + rest;
      forall k | 0 <= k < |f + rest|
        ensures (f + rest)[k] !in s.completed
      {
        if k >= |f| {
          assert (f + rest)[k] == rest[k - |f|];
          assert rest[k - |f|] !in s'.completed;
        }
      }
    }
  }

  /**
   * `furthestWatched` never decreases and ends at least at every position
   * the poll saw.
   */
  lemma {:induction false} FurthestWatchedHighWater(s: State, evs: seq<Event>)
    ensures s.furthestWatched <= Run(Dynamic, s, evs).furthestWatched
    ensures forall k :: 0 <= k < |evs| && evs[k].PollTick? ==> evs[k].mediaTime <= Run(Dynamic, s, evs).furthestWatched
    decreases |evs|
  {
    if evs != [] {
      var s' := Step(Dynamic, s, evs[0]);
      assert s.furthestWatched <= s'.furthestWatched;
      FurthestWatchedHighWater(s', evs[1..]);
      forall k | 0 <= k < |evs| && evs[k].PollTick?
        ensures evs[k].mediaTime <= Run(Dynamic, s, evs).furthestWatched
      {
        if k > 0 {
          assert evs[k] == evs[1..][k - 1];
        }
      }
    }
  }

  /**
   * The cap is `furthestWatched` as last polled: when the playhead has
   * moved past it since the poll, fast-forward moves the playhead back.
   */
  lemma ForwardFallsBackWhenAheadOfPoll(mediaTime: real, furthestWatched: real)
    requires furthestWatched < mediaTime
    ensures ForwardTarget(Dynamic, mediaTime, furthestWatched) == furthestWatched < mediaTime
  {
  }

  /** ArrowRight never pauses: while playing the key changes nothing. */
  lemma KeyNeverPauses(s: State, key: string, readyState: int, playResolves: bool)
    requires s.isPlaying
    ensures Step(Dynamic, s, KeyPress(key, readyState, playResolves)) == s
  {
  }

  /**
   * ArrowRight starts playback exactly when playback is paused with the
   * controls hidden (a hotspot pause) and the media element resumes;
   * otherwise it changes nothing.
   */
  lemma KeyResumesOnlyAtHotspotPause(s: State, key: string, readyState: int, playResolves: bool)
    ensures var r := Step(Dynamic, s, KeyPress(key, readyState, playResolves));
      (r != s <==> key == "ArrowRight" && !s.isPlaying && !s.showControls && readyState >= HaveFutureData && playResolves)
    ensures var r := Step(Dynamic, s, KeyPress(key, readyState, playResolves));
      r != s ==> r == s.(isPlaying := true, showControls := true, playButton := DefaultPlacement)
  {
  }
}
