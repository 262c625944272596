/**
 * One mounted player component as an object: its React state is the
 * fields, and each handler is a method that updates them in place. Every
 * method's new state is the corresponding `Session` function of the old
 * state, so the lemmas proved there hold of the object.
 */
module Controller {
  import opened Wrappers
  import opened Hotspots
  import opened Session
  import opened TimeFormat
  import VideoPlayer
  import AnywhereVideoPlayer

  /** The hotspot list a component starts with: the dynamic player's is empty until loaded. */
  function StaticTimestamps(v: Variant): seq<Hotspot> {
    match v
    case Basic => VideoPlayer.Timestamps
    case Anywhere => AnywhereVideoPlayer.Timestamps
    case Dynamic => []
  }

  class Player {
    const variant: Variant
    var isPlaying: bool
    var showControls: bool
    var playButton: Placement
    var lastPausedTimestamp: Option<real>
    var displayedTime: real
    var furthestWatched: real
    var completed: seq<real>
    var timestamps: seq<Hotspot>

    function Snapshot(): State
      reads this
    {
      State(isPlaying, showControls, playButton, lastPausedTimestamp, displayedTime,
            furthestWatched, completed, timestamps)
    }

    /**
     * While playing the controls show and the button is in place; the two
     * static players keep their own list and never use `completed` or
     * `furthestWatched`; the dynamic player's `completed` has no repeats.
     */
    ghost predicate Valid()
      reads this
    {
      && Consistent(Snapshot())
      && (variant != Dynamic ==> timestamps == StaticTimestamps(variant) && completed == [] && furthestWatched == 0.0)
      && (variant == Dynamic ==> NoDuplicates(completed))
    }

    /** Mounting: paused, controls visible, button in place, nothing fired yet. */
    constructor (v: Variant)
      ensures Valid() && variant == v
      ensures Snapshot() == Initial(StaticTimestamps(v))
    {
      variant := v;
      isPlaying := false;
      showControls := true;
      playButton := DefaultPlacement;
      lastPausedTimestamp := None;
      displayedTime := 0.0;
      furthestWatched := 0.0;
      completed := [];
      timestamps := StaticTimestamps(v);
    }

    /** The dynamic player's `setTimestamps(data['dynamic'])` once the fetch resolves. */
    method LoadTimestamps(loaded: seq<Hotspot>)
      requires Valid()
      modifies this
      ensures Valid()
      ensures Snapshot() == Step(variant, old(Snapshot()), HotspotsLoaded(loaded))
    {
      if variant == Dynamic {
        timestamps := loaded;
      }
    }

    /** `checkTime`, run on the media element's `timeupdate` event. */
    method HandleTimeUpdate(mediaTime: real)
      requires Valid()
      modifies this
      ensures Valid()
      ensures Snapshot() == TimeUpdate(variant, old(Snapshot()), mediaTime)
      ensures !old(isPlaying) ==> Snapshot() == old(Snapshot())
      ensures completed == old(completed) || (variant == Dynamic && completed == old(completed) + [timestamps[FiredIndex(variant, old(Snapshot()), mediaTime).value].time])
    {
      if !isPlaying {
        return;
      }
      var found := FindFirst(timestamps, mediaTime, lastPausedTimestamp, if variant == Dynamic then completed else []);
      if found.Some? {
        var h := timestamps[found.value];
        lastPausedTimestamp := Some(mediaTime);
        isPlaying := false;
        showControls := false;
        playButton := h.location;
        if variant == Dynamic {
          completed := completed + [h.time];
        }
      }
    }

    /** The half-second poll: time display, and the dynamic player's high-water mark. */
    method HandlePoll(mediaTime: real)
      requires Valid()
      modifies this
      ensures Valid()
      ensures Snapshot() == Poll(variant, old(Snapshot()), mediaTime)
      ensures furthestWatched >= old(furthestWatched)
      ensures variant == Dynamic ==> furthestWatched >= mediaTime
    {
      displayedTime := mediaTime;
      if variant == Dynamic && mediaTime > furthestWatched {
        furthestWatched := mediaTime;
      }
    }

    /**
     * `handlePlayPause`, with the media element's `readyState` and whether
     * its `play()` promise resolves given as inputs.
     */
    method HandlePlayPause(readyState: int, playResolves: bool)
      requires Valid()
      modifies this
      ensures Valid()
      ensures Snapshot() == PlayPause(old(Snapshot()), readyState, playResolves)
      ensures old(isPlaying) ==> !isPlaying
    {
      if isPlaying {
        isPlaying := false;
      } else if readyState >= HaveFutureData && playResolves {
        playButton := DefaultPlacement;
        showControls := true;
        isPlaying := true;
      }
    }

    /** `handleRewind`: returns the `currentTime` it writes, and re-arms detection. */
    method HandleRewind(mediaTime: real) returns (newTime: real)
      requires Valid()
      modifies this
      ensures Valid()
      ensures newTime == mediaTime - SkipSeconds
      ensures Snapshot() == Rearm(old(Snapshot()))
    {
      newTime := RewindTarget(mediaTime);
      lastPausedTimestamp := None;
    }

    /** `handleFastForward`: returns the `currentTime` it writes, and re-arms detection. */
    method HandleFastForward(mediaTime: real) returns (newTime: real)
      requires Valid()
      modifies this
      ensures Valid()
      ensures newTime == ForwardTarget(variant, mediaTime, furthestWatched)
      ensures variant == Dynamic ==> newTime <= furthestWatched
      ensures Snapshot() == Rearm(old(Snapshot()))
    {
      newTime := ForwardTarget(variant, mediaTime, furthestWatched);
      lastPausedTimestamp := None;
    }

    /**
     * `handleProgressChange` for a slider at `value` percent of a video
     * `duration` seconds long: returns the `currentTime` it writes, and
     * re-arms detection.
     */
    method HandleProgressChange(duration: real, value: real) returns (newTime: real)
      requires Valid()
      modifies this
      ensures Valid()
      ensures newTime == SliderTarget(variant, duration, value, furthestWatched)
      ensures variant == Dynamic ==> newTime <= furthestWatched
      ensures Snapshot() == Rearm(old(Snapshot()))
    {
      newTime := SliderTarget(variant, duration, value, furthestWatched);
      lastPausedTimestamp := None;
    }

    /** The dynamic player's `keydown` listener; the other players have none. */
    method HandleKeyPress(key: string, readyState: int, playResolves: bool)
      requires Valid()
      modifies this
      ensures Valid()
      ensures Snapshot() == Step(variant, old(Snapshot()), KeyPress(key, readyState, playResolves))
      ensures old(isPlaying) ==> Snapshot() == old(Snapshot())
    {
      if variant == Dynamic && key == "ArrowRight" && !isPlaying && !showControls {
        HandlePlayPause(readyState, playResolves);
      }
    }

    /** The time display: `formatTime(currentTime)`. */
    function TimeDisplay(): (r: string)
      reads this
      ensures displayedTime >= 0.0 ==> r == FormatTime(displayedTime.Floor)
    {
      FormatPosition(displayedTime)
    }
  }
}
