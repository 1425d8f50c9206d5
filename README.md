# top-play: a model of the panel indicator

top-play is a GNOME Shell extension: a panel button whose menu has a
search entry, a list of song results, a now-playing area and
play/pause/previous/next controls. Songs come from a catalog search
endpoint and play through a GStreamer `playbin`. This project models the
extension's `Indicator` object, which is the controller of one session.
The model covers:

- the debounced search: typing cancels the pending search timer, and a
  non-empty query shows a spinner and waits 350 ms before sending;
- rendering a list of results: each row shows the song's name, its
  artist text and its duration text, has a staggered entrance timer and
  a lazily loaded small cover, and the row of the playing song gets its
  now-playing overlay back;
- clicking a row, which moves the animated overlay and the highlight
  to that row and plays its 320kbps link;
- the progress poll, which updates the clocks and advances to the next
  row at the end of a track;
- play/pause, previous and next with wrap-around, and the spinner;
- `destroy`, which cancels the indicator's timers.

The model is in two layers.

- `Controller` is a state machine over `IndicatorState`. The state has
  one field per Indicator field the handlers use. It also holds the three
  parts of the outside world that the handlers change: the GLib main
  loop's pending sources (a map from source id to the callback the source
  will run), every playbin made so far, and the search requests sent but
  not yet answered. Each handler is a function from the state before to
  the state after. `Inv` is the invariant every handler keeps. It says:
  - each handle field names a pending source of its own kind;
  - no pending source of a tracked kind is missed;
  - every row-level timer is recorded in `_rowTimeouts`;
  - the rows line up with the rendered results;
  - at most one playbin is out of the NULL state.
- `IndicatorClass.Indicator` is a class with the same fields. Its methods
  update those fields in place, one statement of the source at a time
  where that statement changes a field. Each method
  is proved to leave exactly the state the matching `Controller` function
  describes, and the handlers are proved to keep `Inv`. `ControllerLemmas`
  proves what each handler guarantees.

The pure helpers sit in their own modules:

- `Text`: `String(n)`, `padStart`, `trim`, and reading digits back;
- `Catalog`: songs and the link lookups;
- `Format`: the duration and clock texts, with a reader that parses
  them back;
- `Playback`: the end-of-track test, the playbin URI, and the
  previous/next index;
- `Layout`: the results height and the overlay frame counter.

## Model

| member | source | states |
|---|---|---|
| Text.NatTextValue | extension.js:272 | the digits of `String(n)` read back as `n` |
| Text.PaddedNatValue | extension.js:272 | `padStart(2, "0")` on `String(n)` keeps it all digits and keeps its value |
| Text.TrimEmptyIffAllSpace | extension.js:168-169 | the trimmed query is empty exactly when the text is all JavaScript white space |
| Text.TrimIsSlice | extension.js:168 | `trim()` keeps one slice of the text, with only white space before and after it |
| Catalog.FindLink | extension.js:273 | `find(...)?.link` is absent exactly when no entry has the quality |
| Catalog.FindLinkFirst | extension.js:273 | when entry `k` is the first with the quality, `find` returns its link |
| Catalog.AudioUrl | extension.js:419-420 | a click plays only a present, non-empty 320kbps link, and it is the first such link |
| Catalog.ArtistText | extension.js:268 | `primaryArtists` when it is non-empty, otherwise "Unknown Artist"; never empty |
| Format.JsRem | extension.js:524-530 | JavaScript's `%`: the dividend is the truncated quotient times the divisor plus the remainder, and the remainder has the dividend's sign and lies strictly within the divisor |
| Format.DurationTextRoundTrip | extension.js:269-272 | a row's "m:ss" duration reads back as the duration in seconds; its minutes field is `String(d / 60)` |
| Format.ClockLabelRoundTrip | extension.js:524-530 | a clock label of a non-negative time reads back as its whole seconds; its minutes field is as long as `String(minutes)` but at least two digits (exactly two below 100 minutes), and its seconds field is exactly two digits |
| Format.ClockFieldsRoundTrip | extension.js:525-530 | padded minutes and seconds fields read back as `60 * m + r`; the minutes field is as long as `String(m)` but at least two digits, and the seconds field is two digits |
| Playback.PlaybackUri | extension.js:498 | a URL starting with "http" is used as it is, any other URL gets the "file://" prefix; the URI ends with the URL |
| Playback.PlaybackUriRoundTrip | extension.js:498 | the URL is recovered from the URI, so no two URLs share a URI |
| Playback.NextIndex | extension.js:569-572 | the next index is `(current + 1) mod n` from -1 to n - 1, and 0 past the end |
| Playback.PrevIndex | extension.js:552-555 | the previous index is `(current - 1) mod n` from 0 to n, the last row from 0 or below, and out of range above n |
| Playback.NextPrevInverse | extension.js:549-582 | next and previous undo each other on every valid index |
| Layout.ResultsHeight | extension.js:482 | `min(n * 60, 250)`: at most 250, at most `n * 60`, and equal to one of the two |
| Layout.ResultsHeightMonotonic | extension.js:482 | more rows never shrink the results view |
| Layout.NextFrame | extension.js:356 | the next overlay frame stays below 30 and wraps from 29 to 0 |
| Layout.AdvanceFramesIsMod | extension.js:345-358 | after `k` ticks the overlay shows frame `(idx + k) mod 30` |
| Layout.FramesCycle | extension.js:403 | every 30 ticks the overlay is back at the frame it started from |
| ControllerLemmas.InitialInv | extension.js:34-50 | the state `_init` leaves satisfies the invariant |
| ControllerLemmas.CancelSearchInv | extension.js:164-167 | cancelling the debounce removes exactly its source and leaves no search timer |
| ControllerLemmas.TextChangedAllSpace | extension.js:168-177 | a query made only of white space, the empty one included, cancels the debounce, hides the spinner, destroys the rows and their timers, schedules a resize to 0 and keeps the sent fetches and `_renderedResults`; no other field changes |
| ControllerLemmas.ClearQueryCancels | extension.js:168-177 | clearing the query leaves no search timer, no spinner, no rows and no row timer, and schedules a resize to 0; sent searches stay outstanding |
| ControllerLemmas.TextChangedQuery | extension.js:178-194 | a non-empty query leaves exactly one search timer, carrying the trimmed query; the earlier one is cancelled, the spinner shows, the view eases to 44, and nothing is sent yet |
| ControllerLemmas.TextChangedInv | extension.js:163-195 | every keystroke keeps the invariant and sends nothing |
| ControllerLemmas.DebounceLastQueryWins | extension.js:163-195 | after any run of keystrokes ending in a non-empty query, the only pending search is for that last query |
| ControllerLemmas.SearchFiredSends | extension.js:181-194 | when the debounce fires, its query is sent and `_searchTimeout` is reset |
| ControllerLemmas.FetchSettledShows | extension.js:182-191 | an answer renders the results and a failure keeps the rows; on both paths the spinner and its loop are gone |
| ControllerLemmas.ClearAllRowsCancels | extension.js:198-204 | `_clearAllRows` cancels every recorded row timer, leaves no row timer pending, drops the rows and keeps every other source |
| ControllerLemmas.CreateSpinnerInv | extension.js:584-606 | the spinner shows, the rows go when it was not already shown, old sources stay and only fresh ids are added |
| ControllerLemmas.DestroySpinnerInv | extension.js:608-618 | `_destroySpinner` removes exactly the spinner loop and hides the spinner |
| ControllerLemmas.RenderResultsShows | extension.js:257-486 | one row per result at its own index, showing the song's name, `ArtistText` and `DurationText`, highlighted exactly when it is the playing song, each with an entrance timer carrying its small cover; then a resize to `min(n * 60, 250)` |
| ControllerLemmas.RenderResultsRestoresOverlay | extension.js:326-361 | a row has an overlay wrapper exactly when it holds the playing song, each wrapper's animation is pending from frame 0, and the last such row's wrapper is the current overlay |
| ControllerLemmas.RenderResultsCancels | extension.js:260-261 | rendering cancels the old rows' timers, keeps every other pending source and only adds sources with fresh ids |
| ControllerLemmas.RenderResultsInv | extension.js:257-486 | rendering keeps the invariant |
| ControllerLemmas.RowEntranceFiredShows | extension.js:459-474 | an entrance timer runs once; a row with a small cover gets a recorded 500 ms cover timer for the same row |
| ControllerLemmas.ArtworkFiredInv | extension.js:461-469 | the cover timer runs once and keeps the invariant |
| ControllerLemmas.ResizeFiredShows | extension.js:172-175 | the resize runs once and the view takes the height it carried |
| ControllerLemmas.OverlayFrameFiredShows | extension.js:345-358 | an overlay animation keeps running, at the next frame mod 30, and nothing is added or removed |
| ControllerLemmas.CancelOverlayInv | extension.js:368-373 | stopping the current overlay removes its source and its wrapper and keeps the invariant |
| ControllerLemmas.SelectRowShows | extension.js:364-417 | a click sets `_currentIndex`, stops the old overlay, makes a fresh overlay on the clicked row current, and highlights only that row; "exactly one live overlay" is kept when it held before, since a re-render can leak one (`OverlayLeakOnRerender`) |
| ControllerLemmas.RowClickedSelects | extension.js:364-455 | every click selects its row: index, playing id, highlight only on that row, the current overlay on that row, the old overlay stopped; "exactly one live overlay" is kept when it held before, since a re-render can leak one (`OverlayLeakOnRerender`) |
| ControllerLemmas.RowClickedPlays | extension.js:419-455 | a song with a 320kbps link shows its name and artists, and a new playbin plays that link while every older playbin is in NULL |
| ControllerLemmas.RowClickedWithoutAudio | extension.js:419-420 | a song without a 320kbps link is still selected, but the player, the labels and the poll stay as they were |
| ControllerLemmas.PlayAudioMade | extension.js:488-503 | a made playbin gets the URI, is PLAYING and current; the icon shows pause; a single fresh poll replaces the old one |
| ControllerLemmas.PlayAudioFailed | extension.js:493-497 | when no playbin can be made, the old one is in NULL and dropped, and `isPlaying` and `progressId` stay as they were |
| ControllerLemmas.StartTrackingFrame | extension.js:505-510 | `_startTrackingProgress` changes only the sources, the next id and `progressId` |
| ControllerLemmas.ProgressTickNoPlayer | extension.js:511-512 | with no player, the poll's queries throw and the poll source is dropped |
| ControllerLemmas.ProgressTickPolls | extension.js:513-533 | before the end of the track the poll keeps running; with both answers and a positive duration, the two clocks show position and duration |
| ControllerLemmas.ProgressTickAdvances | extension.js:514-520 | at the end of a track the poll is cancelled, the finished playbin is in NULL, and the next row (wrapping) becomes current |
| ControllerLemmas.AutoAdvanceWraps | extension.js:514-520 | the last song ending wraps playback to the first row |
| ControllerLemmas.AutoAdvanceStopsOnSongWithoutAudio | extension.js:514-520 | when the next song has no 320kbps link, the ended playbin stays current, in NULL, with no poll, while `_isPlaying` and the pause icon keep their values |
| ControllerLemmas.TogglePlayPauseShows | extension.js:536-547 | with a player, playing and paused swap on the playbin, the flag and the icon; without one nothing changes |
| ControllerLemmas.ToggleTwice | extension.js:536-547 | when the current playbin's state agrees with `_isPlaying` (PLAYING or PAUSED), a toggle keeps that agreement and toggling twice gives back the state toggled from |
| ControllerLemmas.ToggleTwiceRestartsStopped | extension.js:536-547 | from a NULL playbin with `_isPlaying` true, the first toggle pauses it and the second sets it PLAYING, so two toggles do not give back the state |
| ControllerLemmas.PlayNextShows | extension.js:567-582 | with results and rows, the row after `_currentIndex` is clicked, wrapping to the first; otherwise nothing happens |
| ControllerLemmas.PlayPreviousShows | extension.js:549-565 | with results and rows, the row before is clicked, from the first row the last; a stale index past the end does nothing |
| ControllerLemmas.NextThenPrevious | extension.js:549-582 | from a playing row, next then previous comes back to it |
| ControllerLemmas.DestroyCancels | extension.js:207-241 | `destroy` cancels the debounce, the poll, the spinner loop, the current overlay and every row timer, and resets their handles; only stray overlays and a resize can stay pending |
| ControllerLemmas.DestroyLeavesPlayerPlaying | extension.js:207-241 | `destroy` does not stop a playing song |
| ControllerLemmas.StaleFetchAfterClear | extension.js:168-191 | clearing the query does not withdraw a sent search; its answer is rendered into the emptied list |
| ControllerLemmas.OverlayLeakOnRerender | extension.js:327-361 | re-rendering a list that holds the playing song replaces `_currentOverlay` without stopping the old animation, which `destroy` then misses |
| ControllerLemmas.DestroyKeepsStrayOverlay | extension.js:227-235 | `destroy` stops only the current overlay animation |
| IndicatorClass.Indicator.constructor | extension.js:34-50 | the fields start as `_init` sets them, and the invariant holds |
| IndicatorClass.Indicator.TextChanged | extension.js:163-195 | the handler leaves the state `Controller.TextChanged` describes and keeps the invariant |
| IndicatorClass.Indicator.SearchFired | extension.js:181-194 | the debounce callback: `Controller.SearchFired`, invariant kept |
| IndicatorClass.Indicator.FetchSettled | extension.js:182-191 | the promise's `then` and `catch`: `Controller.FetchSettled`, invariant kept |
| IndicatorClass.Indicator.ClearAllRows | extension.js:198-204 | the loop removes the recorded row timers one at a time; the result is `Controller.ClearAllRows` |
| IndicatorClass.Indicator.CreateSpinner | extension.js:584-606 | `Controller.CreateSpinner` |
| IndicatorClass.Indicator.DestroySpinner | extension.js:608-618 | `Controller.DestroySpinner` |
| IndicatorClass.Indicator.RenderResults | extension.js:257-486 | the row loop builds what `Controller.RenderRows` describes, then schedules the resize; invariant kept |
| IndicatorClass.Indicator.RenderRow | extension.js:264-476 | one turn of the row loop is `Controller.RenderRow` on the fields it builds, and touches no other field |
| IndicatorClass.Indicator.RowEntranceFired | extension.js:459-474 | `Controller.RowEntranceFired`, invariant kept |
| IndicatorClass.Indicator.ArtworkFired | extension.js:461-469 | `Controller.ArtworkFired`, invariant kept |
| IndicatorClass.Indicator.ResizeFired | extension.js:481-485 | `Controller.ResizeFired`, invariant kept |
| IndicatorClass.Indicator.OverlayFrameFired | extension.js:345-358 | `Controller.OverlayFrameFired`, invariant kept |
| IndicatorClass.Indicator.CancelOverlay | extension.js:368-373 | `Controller.CancelOverlay` |
| IndicatorClass.Indicator.ResetTitles | extension.js:409-412 | the loop resets every row's title to its original style and changes nothing else |
| IndicatorClass.Indicator.SelectRow | extension.js:364-417 | `Controller.SelectRow` |
| IndicatorClass.Indicator.RowClicked | extension.js:364-455 | `Controller.RowClicked`, invariant kept |
| IndicatorClass.Indicator.PlayAudio | extension.js:488-503 | `Controller.PlayAudio` |
| IndicatorClass.Indicator.StartTrackingProgress | extension.js:505-510 | `Controller.StartTrackingProgress` |
| IndicatorClass.Indicator.ProgressTick | extension.js:510-533 | `Controller.ProgressTick`, invariant kept |
| IndicatorClass.Indicator.TrackEnded | extension.js:514-517 | `Controller.TrackEnded`: the poll is cancelled and forgotten, and the playbin is put into NULL |
| IndicatorClass.Indicator.TogglePlayPause | extension.js:536-547 | `Controller.TogglePlayPause`, invariant kept |
| IndicatorClass.Indicator.PlayPrevious | extension.js:549-565 | `Controller.PlayPrevious`, invariant kept |
| IndicatorClass.Indicator.PlayNext | extension.js:567-582 | `Controller.PlayNext`, invariant kept |
| IndicatorClass.Indicator.SeekDragEnd | extension.js:125-133 | a seek is issued exactly when there is a player and a known, positive duration |
| IndicatorClass.Indicator.Destroy | extension.js:207-241 | `Controller.Destroy` |

## Behaviour kept as written

These follow the code, and each has a lemma above that shows it.

- A click on a song without a 320kbps link still moves the selection, the
  overlay and the highlight to it, but plays nothing
  (`RowClickedWithoutAudio`).
- When `Gst.ElementFactory.make` fails, the old playbin has already been
  stopped and dropped, but `isPlaying`, the pause icon and `progressId`
  keep their values (`PlayAudioFailed`).
- At the end of a track the playbin is put into NULL but stays
  `currentPlayer`. If the next song has no link, playback stops there
  (`AutoAdvanceStopsOnSongWithoutAudio`). `_isPlaying` stays true, so
  the next press of play/pause pauses the NULL playbin and the press
  after that plays the ended song again (`ToggleTwiceRestartsStopped`).
- `_createSpinner` destroys the rows without cancelling their timers
  (`CreateSpinnerInv`).
- The overlay restore in `_renderResults` overwrites `_currentOverlay`
  without removing the previous animation source, so that source runs
  on past `destroy` (`OverlayLeakOnRerender`).
- Clearing the query neither withdraws a search already sent nor resets
  `_renderedResults`, so a late answer is still rendered
  (`StaleFetchAfterClear`).
- `destroy` leaves the player playing and leaves the spinner flag alone.
  As a result, the invariant need not hold after `destroy` while the
  spinner is shown (`DestroyLeavesPlayerPlaying`).
- The row restore in `_renderResults` makes its own `image` icon
  (extension.js:330-335), so the restored overlay is modelled like a
  clicked one.

## Left out

- Widgets, styles and easing animations: the labels, the highlight
  colour, the results height and the overlay wrappers are kept as values.
  Opacity, translation and the artwork slide are not modelled.
- GStreamer: a playbin is its URI and its state. The position and
  duration queries and the success of `Gst.ElementFactory.make` are
  parameters of the handlers.
- The seek itself (`slider.value * dur`) is floating point; only the
  guard on it is modelled (`SeekDragEnd`).
- `fetchSongs`, the HTTP session and JSON parsing: a search request is
  recorded when it is sent. Its answer (a list of songs, or a failure) is
  a parameter of `FetchSettled`.
- The soundbar pixbufs are not modelled: the frame files, whether they
  loaded, and their release in `disable`. Only the frame counter is.
- The extension's `enable`/`disable` and the panel setup in `_init`
  beyond the fields are not modelled.
- The spinner's rotation angle `(angle + 6) % 360` is not modelled.
- The large artwork panel and `_artworkDirection` are not modelled.
- `_currentResults` is written but never read, so it is not modelled.
- GLib source timing, priorities and ordering: a pending source fires
  only when its handler method is called, in whatever order the caller
  chooses. A repeating source stays pending after it fires, and a
  one-shot source is removed.
- JavaScript strings are UTF-16; the model's strings are sequences of
  Unicode characters. This affects only `trim` on characters outside the
  Basic Multilingual Plane, none of which is white space.
- Song durations are whole seconds (`nat`). A fractional or negative
  `duration` from the endpoint is not modelled.
- ProgressTick: with no current player, the poll callback throws a
  TypeError on `query_position`. This is modelled as the source being
  dropped with nothing else changed, which is how GJS treats a callback
  that throws.
- Destroy: states its exact result but not the invariant, because
  `destroy` keeps `_spinnerBin` set while it stops the spinner loop.
