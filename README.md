# Hotspot video player controller

The repository holds near-identical React video players that pause
playback at predefined positions ("hotspots"). When playback reaches a
hotspot, the player hides its controls and moves the play button to the
hotspot's `location`. Pressing the button resumes playback, puts the
button back in its normal place and shows the controls again. This project
models the controller those players share, in three variants:

- VideoPlayer.jsx (`Basic`): three fixed hotspots, at 10, 20 and 30 s.
- AnywhereVideoPlayer.jsx (`Anywhere`): four fixed hotspots, at 137, 271,
  399 and 529 s, whose button covers the whole screen.
- DynamicVideoPlayer.jsx (`Dynamic`): a hotspot list loaded at run time.
  A `completed` list makes each hotspot time fire once. A `furthestWatched`
  mark caps forward seeks. The ArrowRight key resumes from a hotspot pause.

Modules:

- `Wrappers`: `Option`, for a value that may be `null` and for a parse
  that may fail.
- `Hotspots`: the hotspot record, the matching rule and `FindFirst`
  (`Array.prototype.find` as an index).
- `TimeFormat`: `formatTime`, with a parser that reads its output back.
- `Session`: the component state as a value, one function per handler,
  events, and runs of events with the lemmas about them.
- `VideoPlayer`, `AnywhereVideoPlayer`, `DynamicVideoPlayer`: each file's
  constants and the properties that belong to that file.
- `Controller`: class `Player`. Its fields are the React state. Its methods
  are the handlers and update the fields in place. Each method's new state
  equals the matching `Session` function applied to the old state.

The media element is outside the model. Handlers receive its `currentTime`,
its `readyState` and the outcome of its `play()` promise as inputs. A seek
handler returns the `currentTime` it writes. Positions are exact `real`s.
`formatTime` is modelled on whole seconds. `FormatPosition` adds the
millisecond truncation of `new Date(seconds * 1000)`.

Three details of the code that the model keeps:

- A `null` `lastPausedTimestamp` is converted to 0 in
  `currentTime - lastPausedTimestamp > 1`. So "never paused" means "paused
  at 0", not "always armed". A hotspot at or before 0.5 s can therefore
  never fire while it is `null` (`Hotspots.NullLastNeverArmsEarlyHotspot`).
- Rewind is not clamped at 0. Fast-forward and the slider are not clamped
  in `Basic` and `Anywhere`. In `Dynamic` they are capped at
  `furthestWatched` only.
- `completed` is a list that is appended to, not a set.

The `furthestWatched` cap uses the value from the last half-second poll.
If the playhead has moved past it since that poll, fast-forward moves the
playhead back to it (`DynamicVideoPlayer.ForwardFallsBackWhenAheadOfPoll`).

## Model

| member | source | states |
|---|---|---|
| `Hotspots.Matches` | src/components/VideoPlayer.jsx:71-74 | The `find` predicate of the fixed-list players. It holds exactly when the position lies in [time - 0.5, time + 0.5] and is more than 1 s past the last pause, with null read as 0. |
| `Hotspots.Eligible` | src/components/DynamicVideoPlayer.jsx:59-64 | The dynamic player's `find` predicate. It implies `Matches` and equals it when nothing is completed. A completed time is never eligible. |
| `Hotspots.FindFirst` | src/components/DynamicVideoPlayer.jsx:59-64 | Returns the least index whose entry is eligible: within 0.5 s, more than 1 s past the last pause with null read as 0, and not completed. Returns None exactly when no entry is eligible. |
| `Hotspots.NullLastNeverArmsEarlyHotspot` | src/components/VideoPlayer.jsx:48-74 | With `lastPausedTimestamp` null, a hotspot at or before 0.5 s matches no position. |
| `Hotspots.ReArmGapBlocksRefire` | src/components/VideoPlayer.jsx:72-77 | After a hotspot pauses at p, no position in its own window is armed against p. |
| `Hotspots.SpacedWindowsDisjoint` | src/components/AnywhereVideoPlayer.jsx:79-83 | For hotspots more than 1 s apart, no position lies in two windows. |
| `Hotspots.SpacedFindIsOnlyMatch` | src/components/AnywhereVideoPlayer.jsx:79-83 | For spaced hotspots, `find` returns whichever entry is eligible, so list order never decides. |
| `TimeFormat.Hours` | src/components/DynamicVideoPlayer.jsx:162 | `getUTCHours()` in whole seconds, always below 24. `ClockIsTimeOfDay` fixes its value. |
| `TimeFormat.Minutes` | src/components/DynamicVideoPlayer.jsx:163 | `getUTCMinutes()`, always below 60. `ClockIsTimeOfDay` fixes its value. |
| `TimeFormat.Seconds` | src/components/DynamicVideoPlayer.jsx:164 | `getUTCSeconds()`, always below 60. `ClockIsTimeOfDay` fixes its value. |
| `TimeFormat.PadStart2` | src/components/DynamicVideoPlayer.jsx:163-164 | `padStart(2, "0")`: the result has at least two characters. It ends with the input, and everything before the input is `0`. |
| `TimeFormat.Decimal` | src/components/DynamicVideoPlayer.jsx:162-164 | `toString()` of a non-negative integer: digits only, with no leading zero. One digit below 10, two below 100. |
| `TimeFormat.DecimalRoundTrip` | src/components/DynamicVideoPlayer.jsx:162-164 | Reading back the digits `toString()` prints gives the number. |
| `TimeFormat.TwoDigits` | src/components/DynamicVideoPlayer.jsx:163-164 | `toString().padStart(2, "0")` of a value below 60 is exactly two digits. |
| `TimeFormat.TwoDigitsRoundTrip` | src/components/DynamicVideoPlayer.jsx:163-164 | The two padded digits read back as the value. |
| `TimeFormat.HoursPrefix` | src/components/DynamicVideoPlayer.jsx:165-166 | Nonzero hours are printed unpadded: one or two digits, no leading zero, then `:`. |
| `TimeFormat.FormatTime` | src/components/DynamicVideoPlayer.jsx:160-169 | Five characters when the hours are 0. Otherwise 7 characters below 10 hours and 8 from 10 hours, with no leading zero. |
| `TimeFormat.FormatParseRoundTrip` | src/components/DynamicVideoPlayer.jsx:160-169 | Reading the display back gives exactly the date's UTC hours, minutes and seconds. |
| `TimeFormat.ClockIsTimeOfDay` | src/components/DynamicVideoPlayer.jsx:161-164 | The hours, minutes and seconds shown are the seconds modulo 24 hours. |
| `TimeFormat.WholeSeconds` | src/components/DynamicVideoPlayer.jsx:161 | `new Date(seconds * 1000)` read in whole seconds. A position that is not negative shows its floor. A negative one shows a value between its floor and 0. |
| `TimeFormat.FormatPosition` | src/components/DynamicVideoPlayer.jsx:160-169 | `formatTime` of a non-negative playhead position is the display of its whole seconds. |
| `Session.Initial` | src/components/DynamicVideoPlayer.jsx:6-18 | The mount state: paused, controls shown, never paused at a hotspot, nothing completed and `furthestWatched` 0, with the given list. It satisfies the player invariant and has no duplicate completed time. |
| `Session.TimeUpdate` | src/components/DynamicVideoPlayer.jsx:53-83 | While paused it changes nothing. A firing pauses, hides the controls and records the position. `completed` grows by at most one entry, and only in `Dynamic`. The hotspot list and `furthestWatched` never change. |
| `Session.TimeUpdateFiresFirstEligible` | src/components/DynamicVideoPlayer.jsx:59-77 | While playing, the eligible hotspot of least index fires. It sets `isPlaying` and `showControls` false, `playButton` to its `location` and `lastPausedTimestamp` to the position. In `Dynamic` it appends its time to `completed`. Nothing else changes. |
| `Session.TimeUpdateWithoutEligible` | src/components/DynamicVideoPlayer.jsx:66 | With no eligible hotspot, a time-update changes nothing. |
| `Session.Poll` | src/components/DynamicVideoPlayer.jsx:36-51 | Copies the media time to the display. In `Dynamic`, `furthestWatched` rises to at least the polled time. Nowhere does it decrease. Nothing else changes. |
| `Session.PlayPause` | src/components/DynamicVideoPlayer.jsx:102-134 | Pausing is unconditional. Resuming needs `readyState >= 3` and `play()` to resolve, and then shows the controls and resets the button. Otherwise nothing changes. |
| `Session.Rearm` | src/components/DynamicVideoPlayer.jsx:144 | A seek clears `lastPausedTimestamp` and changes nothing else. |
| `Session.RewindTarget` | src/components/DynamicVideoPlayer.jsx:136-146 | Rewind writes exactly ten seconds earlier, with no clamp. |
| `Session.ForwardTarget` | src/components/DynamicVideoPlayer.jsx:148-158 | Fast-forward writes ten seconds ahead. In `Dynamic` it writes at most `furthestWatched`, and exactly one of the two. |
| `Session.SliderTarget` | src/components/DynamicVideoPlayer.jsx:171-176 | The slider writes `duration * value / 100`. In `Dynamic` it writes at most `furthestWatched`. |
| `Session.RunKeepsConsistent` | src/components/DynamicVideoPlayer.jsx:124-126 | Over any run of events, while playing, the controls are visible and the button is in its normal place. |
| `Session.ControlsHideOnlyOnFiring` | src/components/DynamicVideoPlayer.jsx:74-75 | Only a hotspot firing hides the controls, and it also pauses. |
| `Session.SeekOnlyRearms` | src/components/AnywhereVideoPlayer.jsx:137-177 | Rewind, fast-forward and the slider each change only `lastPausedTimestamp`, which becomes null. |
| `Session.StepCompleted` | src/components/DynamicVideoPlayer.jsx:77 | One event appends to `completed` exactly the time it fires, and only in `Dynamic`. That time was not in `completed` before. |
| `Session.RunKeepsCompleted` | src/components/VideoPlayer.jsx:69-86 | In the players without a completed check, no run of events changes `completed`. |
| `Session.RunCompleted` | src/components/DynamicVideoPlayer.jsx:63-77 | Over any run, the dynamic player's `completed` grows by exactly the times fired, in firing order. |
| `Session.StepWithoutSeek` | src/components/VideoPlayer.jsx:70-77 | An event other than a seek either fires nothing and keeps `lastPausedTimestamp`, or fires one time. That time is within half a second of the position recorded, and the position is armed against the old value. |
| `Session.RefireNeedsSeek` | src/components/VideoPlayer.jsx:70-86 | With no seek in a run, every time fired lies more than half a second past the recorded pause, with null read as 0. The times fired strictly increase, so none fires twice until a seek. |
| `VideoPlayer.TimestampsSpaced` | src/components/VideoPlayer.jsx:16-46 | The hotspots at 10, 20 and 30 s are more than a second apart. |
| `VideoPlayer.OnlyOneHotspotMatches` | src/components/VideoPlayer.jsx:16-74 | At most one of the three entries matches any position, and `find` returns it. |
| `VideoPlayer.CheckTimeIgnoresCompleted` | src/components/VideoPlayer.jsx:64-92 | While playing, a time-update pauses exactly when some entry matches, with no completed check. `completed` stays unchanged. |
| `VideoPlayer.SeeksUnclamped` | src/components/VideoPlayer.jsx:130-170 | Rewind and fast-forward shift by exactly -10 and +10 s. The slider writes `duration * value / 100`. |
| `VideoPlayer.SeekLetsSameHotspotFireAgain` | src/components/VideoPlayer.jsx:137-138 | Without a seek, the hotspot that paused at p cannot fire again in its window. After a seek (position past 1 s), it fires again. |
| `VideoPlayer.FormatTimeShowsHoursWhenNonZero` | src/components/VideoPlayer.jsx:154-163 | The display is `MM:SS` exactly when `(s/3600) % 24` is 0. It shows `(s/60) % 60` minutes and `s % 60` seconds. |
| `VideoPlayer.FormatTimeAtStart` | src/components/VideoPlayer.jsx:154-163 | 0 seconds display as `00:00`. |
| `VideoPlayer.FormatTimeAtOneMinute` | src/components/VideoPlayer.jsx:154-163 | 61 seconds display as `01:01`. |
| `VideoPlayer.FormatTimeAtOneHour` | src/components/VideoPlayer.jsx:154-163 | 3661 seconds display as `1:01:01`. |
| `AnywhereVideoPlayer.TimestampsSpaced` | src/components/AnywhereVideoPlayer.jsx:16-55 | The times 137, 271, 399 and 529 strictly increase and are more than a second apart. |
| `AnywhereVideoPlayer.CheckTimeAtHotspot` | src/components/AnywhereVideoPlayer.jsx:73-101 | While playing, a position matching an entry pauses there. The button becomes full-screen and the position is recorded. Nothing else changes. |
| `AnywhereVideoPlayer.FormatTimeUnderAnHour` | src/components/AnywhereVideoPlayer.jsx:161-170 | Below 3600 s the display is five characters, `MM:SS`, with the minutes and seconds of the input. |
| `DynamicVideoPlayer.FiresEachTimeOnce` | src/components/DynamicVideoPlayer.jsx:59-77 | Over any run, including seeks, `completed` grows by exactly the fired times. It never holds a repeat, and none of them was completed before. |
| `DynamicVideoPlayer.FurthestWatchedHighWater` | src/components/DynamicVideoPlayer.jsx:45-47 | Over any run, `furthestWatched` never decreases. It ends at least at every polled position. |
| `DynamicVideoPlayer.ForwardFallsBackWhenAheadOfPoll` | src/components/DynamicVideoPlayer.jsx:155 | When the playhead is past the last polled `furthestWatched`, fast-forward writes `furthestWatched`. That is behind the playhead. |
| `Session.KeyDown` | src/components/DynamicVideoPlayer.jsx:86-91 | The key acts only for ArrowRight while paused with the controls hidden. When it acts, it resumes with the controls shown and the button reset. It keeps the player invariant. |
| `DynamicVideoPlayer.KeyNeverPauses` | src/components/DynamicVideoPlayer.jsx:86-91 | While playing, ArrowRight changes nothing. |
| `DynamicVideoPlayer.KeyResumesOnlyAtHotspotPause` | src/components/DynamicVideoPlayer.jsx:86-91 | The key changes the state exactly when it is ArrowRight, playback is paused with the controls hidden, `readyState >= 3` and `play()` resolves. It then resumes with the controls shown and the button reset. |
| `Controller.Player.constructor` | src/components/DynamicVideoPlayer.jsx:6-18 | At mount the player is paused, with the controls visible and the button in place. Nothing has paused or completed, and there is the variant's starting hotspot list. |
| `Controller.Player.LoadTimestamps` | src/components/DynamicVideoPlayer.jsx:24-34 | The dynamic player replaces its hotspot list with the loaded one. The others ignore it. |
| `Controller.Player.HandleTimeUpdate` | src/components/VideoPlayer.jsx:64-92 | The new state is `Session.TimeUpdate` of the old one. While paused nothing changes. `completed` grows by the fired time in `Dynamic` only. |
| `Controller.Player.HandlePoll` | src/components/DynamicVideoPlayer.jsx:36-51 | The new state is `Session.Poll` of the old one. `furthestWatched` never decreases and, in `Dynamic`, reaches the polled time. |
| `Controller.Player.HandlePlayPause` | src/components/AnywhereVideoPlayer.jsx:103-135 | The new state is `Session.PlayPause` of the old one. Playing always becomes paused. |
| `Controller.Player.HandleRewind` | src/components/AnywhereVideoPlayer.jsx:137-147 | Writes the position ten seconds back and clears `lastPausedTimestamp`. |
| `Controller.Player.HandleFastForward` | src/components/DynamicVideoPlayer.jsx:148-158 | Writes `ForwardTarget`, at most `furthestWatched` in `Dynamic`, and clears `lastPausedTimestamp`. |
| `Controller.Player.HandleProgressChange` | src/components/DynamicVideoPlayer.jsx:171-176 | Writes `SliderTarget`, at most `furthestWatched` in `Dynamic`, and clears `lastPausedTimestamp`. |
| `Controller.Player.HandleKeyPress` | src/components/DynamicVideoPlayer.jsx:85-100 | The new state is the key event's `Session` step. While playing nothing changes. |
| `Controller.Player.TimeDisplay` | src/components/DynamicVideoPlayer.jsx:232 | For a non-negative displayed time, shows `formatTime` of its whole seconds. |

## Left out

- JSX rendering and CSS are not modelled. Nor are the progress-bar
  gradient (`calculateProgressBackground`) and the `showForward`,
  `showRewind`, `showPlay` and `showPause` blink flags with their
  `setTimeout` resets. They only affect the display, and the play and
  pause icons are never rendered (`showPlay && false`).
- The `progress` state is not modelled. This covers the poll's
  `currentTime / duration * 100` (floating point, possibly NaN) and the
  slider's `setProgress`.
- The fetch of `/data/<videoID>.json` and the `videoID` query-string read
  are not modelled. `LoadTimestamps` takes the loaded list as an input. A
  failed fetch leaves the list empty. A document without a `dynamic` entry
  would store `undefined`, and every later `checkTime` while playing would
  throw. That
  case is not modelled.
- The `setInterval` timer, listener registration and removal, React's
  re-rendering and stale closures, and the asynchronous settling of
  `play()` are not modelled. Each handler is one atomic step on the
  current state, and the outcome of `play()` is a boolean input.
- The media element's own `pause()` and `play()` effects are not modelled.
  Nor is its clamping of `currentTime` to the video's length, or the
  advance of playback between events. The model keeps only the component's
  state.
- The `if (videoRef.current)` guards are not modelled. The element is
  taken as always mounted.
- `event.KeyCode === 39` is modelled as false. Keyboard events have
  `keyCode`, not `KeyCode`, so this alternative never holds. The
  `event.preventDefault()` call on every key is not modelled.
- IEEE-754 rounding of positions is not modelled. Nor is `formatTime` of
  NaN or of times outside the `Date` range.
- src/App.jsx is routing only. RegularVideoPlayer and StaticVideoPlayer,
  which it imports, are not part of this model.
