/**
 * The state one player component keeps and what each of its handlers does
 * to it, as functions from the old state to the new one. Each handler runs
 * as one atomic step. The media element is outside the model: the handlers
 * receive its `currentTime`, `readyState` and the outcome of `play()` as
 * inputs, and the seek handlers' new `currentTime` is given by the target
 * functions below.
 */
module Session {
  import opened Wrappers
  import opened Hotspots

  /**
   * Which component: `Basic` is VideoPlayer.jsx, `Anywhere` is
   * AnywhereVideoPlayer.jsx and `Dynamic` is DynamicVideoPlayer.jsx.
   */
  datatype Variant = Basic | Anywhere | Dynamic

  /**
   * The component's React state. `displayedTime` is the `currentTime` state
   * the poll copies from the media element for the time display;
   * `furthestWatched` and `completed` are used by the dynamic player only.
   */
  datatype State = State(
    isPlaying: bool,
    showControls: bool,
    playButton: Placement,
    lastPausedTimestamp: Option<real>,
    displayedTime: real,
    furthestWatched: real,
    completed: seq<real>,
    timestamps: seq<Hotspot>)

  /** The state at mount, with the component's hotspot list. */
  function Initial(timestamps: seq<Hotspot>): (r: State)
    ensures !r.isPlaying && r.showControls && r.lastPausedTimestamp.None?
    ensures r.timestamps == timestamps && r.completed == [] && r.furthestWatched == 0.0
    ensures Consistent(r) && NoDuplicates(r.completed)
  {
    State(false, true, DefaultPlacement, None, 0.0, 0.0, [], timestamps)
  }

  /** `readyState >= 3` (HAVE_FUTURE_DATA) is what resuming asks of the media element. */
  const HaveFutureData: int := 3

  /** The seek buttons move the playhead by this many seconds. */
  const SkipSeconds: real := 10.0

  /** While playing, the controls are visible and the play button is in its normal place. */
  ghost predicate Consistent(s: State) {
    s.isPlaying ==> s.showControls && s.playButton == DefaultPlacement
  }

  ghost predicate NoDuplicates(xs: seq<real>) {
    forall i, j :: 0 <= i < j < |xs| ==> xs[i] != xs[j]
  }

  /** The `completed` list the `find` predicate consults: only the dynamic player has one. */
  function Excluded(v: Variant, s: State): seq<real> {
    if v == Dynamic then s.completed else []
  }

  /** The index of the hotspot a time-update event at `mediaTime` fires, if any. */
  function FiredIndex(v: Variant, s: State, mediaTime: real): (r: Option<nat>)
    ensures r.Some? ==> r.value < |s.timestamps|
  {
    if s.isPlaying then FindFirst(s.timestamps, mediaTime, s.lastPausedTimestamp, Excluded(v, s)) else None
  }

  /**
   * `checkTime`, the media element's `timeupdate` listener: while playing,
   * the first eligible hotspot pauses playback, hides the controls, moves
   * the play button to its location and records where it paused; the
   * dynamic player also appends its time to `completed`.
   */
  function TimeUpdate(v: Variant, s: State, mediaTime: real): (r: State)
    ensures !s.isPlaying ==> r == s
    ensures r.timestamps == s.timestamps && r.furthestWatched == s.furthestWatched
    ensures r.displayedTime == s.displayedTime
    ensures r.completed == s.completed || (v == Dynamic && |r.completed| == |s.completed| + 1 && r.completed[..|s.completed|] == s.completed)
    ensures r != s ==> !r.isPlaying && !r.showControls && r.lastPausedTimestamp == Some(mediaTime)
    ensures Consistent(s) ==> Consistent(r)
  {
    match FiredIndex(v, s, mediaTime)
    case None => s
    case Some(i) =>
      var h := s.timestamps[i];
      s.(isPlaying := false, showControls := false, playButton := h.location,
         lastPausedTimestamp := Some(mediaTime),
         completed := if v == Dynamic then s.completed + [h.time] else s.completed)
  }

  /**
   * The `setInterval` poll: copy the media time into the time display; the
   * dynamic player also raises its high-water mark `furthestWatched`.
   */
  function Poll(v: Variant, s: State, mediaTime: real): (r: State)
    ensures r.furthestWatched >= s.furthestWatched
    ensures v == Dynamic ==> r.furthestWatched >= mediaTime
    ensures r.furthestWatched == s.furthestWatched || (v == Dynamic && r.furthestWatched == mediaTime)
    ensures r.(displayedTime := s.displayedTime, furthestWatched := s.furthestWatched) == s
    ensures r.displayedTime == mediaTime
  {
    s.(displayedTime := mediaTime,
       furthestWatched := if v == Dynamic && mediaTime > s.furthestWatched then mediaTime else s.furthestWatched)
  }

  /**
   * `handlePlayPause`: pausing is unconditional; resuming needs
   * `readyState >= 3` and `play()` to resolve, and then shows the controls
   * and puts the play button back in its normal place; otherwise nothing
   * changes.
   */
  function PlayPause(s: State, readyState: int, playResolves: bool): (r: State)
    ensures s.isPlaying ==> r == s.(isPlaying := false)
    ensures !s.isPlaying && readyState >= HaveFutureData && playResolves ==>
      r.isPlaying && r.showControls && r.playButton == DefaultPlacement
    ensures !s.isPlaying && !(readyState >= HaveFutureData && playResolves) ==> r == s
    ensures r.(isPlaying := s.isPlaying, showControls := s.showControls, playButton := s.playButton) == s
    ensures Consistent(r)
  {
    if s.isPlaying then s.(isPlaying := false)
    else if readyState >= HaveFutureData && playResolves then
      s.(isPlaying := true, showControls := true, playButton := DefaultPlacement)
    else s
  }

  /** What every seek does to the state: `setLastPausedTimestamp(null)`. */
  function Rearm(s: State): (r: State)
    ensures r.lastPausedTimestamp.None? && r.(lastPausedTimestamp := s.lastPausedTimestamp) == s
  {
    s.(lastPausedTimestamp := None)
  }

  /** `Math.min(a, b)` for numbers that are not NaN. */
  function Min(a: real, b: real): (r: real)
    ensures r <= a && r <= b && (r == a || r == b)
  {
    if a <= b then a else b
  }

  /** The `currentTime` `handleRewind` writes: ten seconds back, with no clamp at 0. */
  function RewindTarget(mediaTime: real): (r: real)
    ensures r + SkipSeconds == mediaTime
  {
    mediaTime - SkipSeconds
  }

  /**
   * The `currentTime` `handleFastForward` writes: ten seconds ahead, and in
   * the dynamic player never past `furthestWatched`.
   */
  function ForwardTarget(v: Variant, mediaTime: real, furthestWatched: real): (r: real)
    ensures r <= mediaTime + SkipSeconds
    ensures v == Dynamic ==> r <= furthestWatched && (r == mediaTime + SkipSeconds || r == furthestWatched)
    ensures v != Dynamic ==> r == mediaTime + SkipSeconds
  {
    if v == Dynamic then Min(mediaTime + SkipSeconds, furthestWatched) else mediaTime + SkipSeconds
  }

  /**
   * The `currentTime` `handleProgressChange` writes for a slider value in
   * percent: that share of the duration, and in the dynamic player never
   * past `furthestWatched`.
   */
  function SliderTarget(v: Variant, duration: real, value: real, furthestWatched: real): (r: real)
    ensures r <= duration * (value / 100.0)
    ensures v == Dynamic ==> r <= furthestWatched && (r == duration * (value / 100.0) || r == furthestWatched)
    ensures v != Dynamic ==> r == duration * (value / 100.0)
  {
    var newTime := duration * (value / 100.0);
    if v == Dynamic then Min(newTime, furthestWatched) else newTime
  }

  /**
   * The dynamic player's `keydown` listener: ArrowRight calls
   * `handlePlayPause` only while playback is paused with the controls hidden,
   * that is, at a hotspot. The `event.KeyCode === 39` alternative reads a
   * property keyboard events do not have, so it is always false.
   */
  function KeyDown(s: State, key: string, readyState: int, playResolves: bool): (r: State)
    ensures key != "ArrowRight" || s.isPlaying || s.showControls ==> r == s
    ensures r != s ==> r == s.(isPlaying := true, showControls := true, playButton := DefaultPlacement)
    ensures Consistent(s) ==> Consistent(r)
  {
    if key == "ArrowRight" && !s.isPlaying && !s.showControls then PlayPause(s, readyState, playResolves) else s
  }

  /** What the environment can do to a mounted player, one handler call at a time. */
  datatype Event =
    | TimeUpdateEvent(mediaTime: real)
    | PollTick(mediaTime: real)
    | PlayPauseClick(readyState: int, playResolves: bool)
    | RewindClick
    | FastForwardClick
    | SliderChange
    | KeyPress(key: string, readyState: int, playResolves: bool)
    | HotspotsLoaded(loaded: seq<Hotspot>)
  {
    predicate IsSeek() {
      RewindClick? || FastForwardClick? || SliderChange?
    }
  }

  /**
   * One event. Only the dynamic player listens for keys and loads its
   * hotspot list; the other two ignore those events.
   */
  function Step(v: Variant, s: State, e: Event): State {
    match e
    case TimeUpdateEvent(t) => TimeUpdate(v, s, t)
    case PollTick(t) => Poll(v, s, t)
    case PlayPauseClick(rs, ok) => PlayPause(s, rs, ok)
    case RewindClick => Rearm(s)
    case FastForwardClick => Rearm(s)
    case SliderChange => Rearm(s)
    case KeyPress(key, rs, ok) => if v == Dynamic then KeyDown(s, key, rs, ok) else s
    case HotspotsLoaded(hs) => if v == Dynamic then s.(timestamps := hs) else s
  }

  /** The hotspot time event `e` fires in state `s`, as a list of zero or one entries. */
  function Fired(v: Variant, s: State, e: Event): seq<real> {
    if e.TimeUpdateEvent? then
      match FiredIndex(v, s, e.mediaTime)
      case Some(i) => [s.timestamps[i].time]
      case None => []
    else []
  }

  function Run(v: Variant, s: State, evs: seq<Event>): State
    decreases |evs|
  {
    if evs == [] then s else Run(v, Step(v, s, evs[0]), evs[1..])
  }

  /** The hotspot times a run of events fires, in order. */
  function Firings(v: Variant, s: State, evs: seq<Event>): seq<real>
    decreases |evs|
  {
    if evs == [] then [] else Fired(v, s, evs[0]) + Firings(v, Step(v, s, evs[0]), evs[1..])
  }

  /** Every handler keeps the controls visible and the button in place while playing. */
  lemma {:induction false} RunKeepsConsistent(v: Variant, s: State, evs: seq<Event>)
    requires Consistent(s)
    ensures Consistent(Run(v, s, evs))
    decreases |evs|
  {
    if evs != [] {
      RunKeepsConsistent(v, Step(v, s, evs[0]), evs[1..]);
    }
  }

  /**
   * The controls are hidden only by a hotspot firing; so a paused player
   * with hidden controls is paused at a hotspot.
   */
  lemma ControlsHideOnlyOnFiring(v: Variant, s: State, e: Event)
    requires s.showControls && !Step(v, s, e).showControls
    ensures |Fired(v, s, e)| == 1 && !Step(v, s, e).isPlaying
  {
  }

  /**
   * A time-update while playing fires the eligible hotspot of least index
   * and changes exactly the five fields the source sets.
   */
  lemma TimeUpdateFiresFirstEligible(v: Variant, s: State, mediaTime: real, i: nat)
    requires s.isPlaying && i < |s.timestamps|
    requires Eligible(s.timestamps[i], mediaTime, s.lastPausedTimestamp, Excluded(v, s))
    requires forall j :: 0 <= j < i ==> !Eligible(s.timestamps[j], mediaTime, s.lastPausedTimestamp, Excluded(v, s))
    ensures TimeUpdate(v, s, mediaTime) ==
      s.(isPlaying := false, showControls := false, playButton := s.timestamps[i].location,
         lastPausedTimestamp := Some(mediaTime),
         completed := s.completed + if v == Dynamic then [s.timestamps[i].time] else [])
  {
    var r := FindFirst(s.timestamps, mediaTime, s.lastPausedTimestamp, Excluded(v, s));
    assert r.Some?;
  }

  /** A time-update with no eligible hotspot changes nothing. */
  lemma TimeUpdateWithoutEligible(v: Variant, s: State, mediaTime: real)
    requires forall j :: 0 <= j < |s.timestamps| ==> !Eligible(s.timestamps[j], mediaTime, s.lastPausedTimestamp, Excluded(v, s))
    ensures TimeUpdate(v, s, mediaTime) == s
  {
  }

  /** A seek changes nothing but `lastPausedTimestamp`, which it clears. */
  lemma SeekOnlyRearms(v: Variant, s: State, e: Event)
    requires e.IsSeek()
    ensures Step(v, s, e) == s.(lastPausedTimestamp := None)
  {
  }

  lemma StepCompleted(v: Variant, s: State, e: Event)
    ensures Step(v, s, e).completed == s.completed + (if v == Dynamic then Fired(v, s, e) else [])
    ensures v == Dynamic ==> forall t :: t in Fired(v, s, e) ==> t !in s.completed
  {
  }

  lemma ConcatAssociates<T>(a: seq<T>, b: seq<T>, c: seq<T>)
    ensures a + (b + c) == (a + b) + c
  {
  }

  /** In the players without a `completed` check, no run changes `completed`. */
  lemma {:induction false} RunKeepsCompleted(v: Variant, s: State, evs: seq<Event>)
    requires v != Dynamic
    ensures Run(v, s, evs).completed == s.completed
    decreases |evs|
  {
    if evs != [] {
      StepCompleted(v, s, evs[0]);
      RunKeepsCompleted(v, Step(v, s, evs[0]), evs[1..]);
    }
  }

  /**
   * In the dynamic player, `completed` grows by exactly the hotspot times
   * fired, in firing order.
   */
  lemma {:induction false} RunCompleted(s: State, evs: seq<Event>)
    ensures Run(Dynamic, s, evs).completed == s.completed + Firings(Dynamic, s, evs)
    decreases |evs|
  {
    if evs != [] {
      var s' := Step(Dynamic, s, evs[0]);
      var f, rest := Fired(Dynamic, s, evs[0]), Firings(Dynamic, s', evs[1..]);
      StepCompleted(Dynamic, s, evs[0]);
      RunCompleted(s', evs[1..]);
      ConcatAssociates(s.completed, f, rest);
    }
  }

  ghost predicate StrictlyIncreasing(xs: seq<real>) {
    forall i, j :: 0 <= i < j < |xs| ==> xs[i] < xs[j]
  }

  /**
   * Without a seek, no hotspot time fires twice: every time fired lies more
   * than half a second past the recorded pause position (null read as 0),
   * and each firing records a position at least as late as the time fired,
   * so the times fired strictly increase. Only a seek, which clears
   * `lastPausedTimestamp`, lets an earlier hotspot fire again.
   */
  lemma {:induction false} RefireNeedsSeek(v: Variant, s: State, evs: seq<Event>)
    requires forall k :: 0 <= k < |evs| ==> !evs[k].IsSeek()
    ensures forall k :: 0 <= k < |Firings(v, s, evs)| ==>
      Firings(v, s, evs)[k] > LastOrZero(s.lastPausedTimestamp) + Tolerance
    ensures StrictlyIncreasing(Firings(v, s, evs))
    ensures NoDuplicates(Firings(v, s, evs))
    decreases |evs|
  {
    if evs != [] {
      var e, rest := evs[0], evs[1..];
      var s' := Step(v, s, e);
      assert forall k :: 0 <= k < |rest| ==> !rest[k].IsSeek() by {
        forall k | 0 <= k < |rest| ensures !rest[k].IsSeek() {
          assert rest[k] == evs[k + 1];
        }
      }
      var f, later := Fired(v, s, e), Firings(v, s', rest);
      assert Firings(v, s, evs) == f + later;
      StepWithoutSeek(v, s, e);
      RefireNeedsSeek(v, s', rest);
      var bound, next := LastOrZero(s.lastPausedTimestamp) + Tolerance, LastOrZero(s'.lastPausedTimestamp) + Tolerance;
      assert f != [] ==> bound < f[0] <= next;
      ExtendFirings(f, later, bound, next);
      IncreasingHasNoDuplicates(f + later);
    }
  }

  /**
   * The list step of `RefireNeedsSeek`: at most one time fired now, above
   * the old bound and not above the new one, followed by later firings that
   * are all above the new bound.
   */
  lemma ExtendFirings(f: seq<real>, later: seq<real>, bound: real, next: real)
    requires |f| <= 1 && (f != [] ==> bound < f[0] <= next) && (f == [] ==> next == bound)
    requires StrictlyIncreasing(later) && forall k :: 0 <= k < |later| ==> later[k] > next
    ensures StrictlyIncreasing(f + later)
    ensures forall k :: 0 <= k < |f + later| ==> (f + later)[k] > bound
  {
    var ys := f + later;
    forall i, j | 0 <= i < j < |ys| ensures ys[i] < ys[j] {
      assert ys[j] == later[j - |f|];
      if i >= |f| {
        assert ys[i] == later[i - |f|];
      }
    }
    forall k | 0 <= k < |ys| ensures ys[k] > bound {
      if k >= |f| {
        assert ys[k] == later[k - |f|];
      }
    }
  }

  lemma IncreasingHasNoDuplicates(xs: seq<real>)
    requires StrictlyIncreasing(xs)
    ensures NoDuplicates(xs)
  {
  }

  /**
   * What one event other than a seek does to `lastPausedTimestamp`: a
   * firing records a position armed against the old value and within half
   * a second of the time fired; any other event keeps it.
   */
  lemma StepWithoutSeek(v: Variant, s: State, e: Event)
    requires !e.IsSeek()
    ensures Fired(v, s, e) == [] ==> Step(v, s, e).lastPausedTimestamp == s.lastPausedTimestamp
    ensures Fired(v, s, e) != [] ==>
      |Fired(v, s, e)| == 1 && e.TimeUpdateEvent? &&
      Step(v, s, e).lastPausedTimestamp == Some(e.mediaTime) &&
      Abs(Fired(v, s, e)[0] - e.mediaTime) <= Tolerance && Armed(e.mediaTime, s.lastPausedTimestamp)
  {
  }
}
