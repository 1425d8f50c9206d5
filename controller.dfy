/**
 * The session controller of the panel indicator as a state machine.
 *
 * `IndicatorState` holds every field of the `Indicator` object that its
 * handlers read or write, together with the three pieces of the outside
 * world those handlers change: the GLib main loop's pending sources (a map
 * from source id to the callback it will run), the playbin elements made
 * so far, and the search requests sent but not yet answered. Each handler
 * of the indicator is a function from the state before to the state after;
 * the class in IndicatorClass runs the same steps on its fields and is
 * proved to agree with these functions, and ControllerLemmas proves what
 * the handlers guarantee.
 */
module Controller {
  import opened Wrappers
  import opened Catalog
  import opened Format
  import opened Playback
  import opened Layout

  /** GLib source ids; GLib never hands out 0, so a set id is always truthy. */
  type SourceId = nat

  /** Position of a playbin in the list of all playbins made. */
  type PlayerId = nat

  /** What a pending GLib source will do when it fires. */
  datatype Source =
    | SearchDebounce(query: string)                  // 350 ms, once: send the search
    | RowEntrance(row: nat, artwork: Option<string>) // row * 50 ms, once: fade the row in
    | ArtworkLoad(row: nat, link: string)            // 500 ms, once: show the small cover
    | ProgressPoll                                   // 500 ms, repeating: poll the player
    | OverlayFrame(frame: nat)                       // 30 ms, repeating: next soundbar frame
    | SpinnerFrame                                   // 16 ms, repeating: turn the spinner
    | ResizeResults(height: nat)                     // idle, once: ease the results view

  /** `Gst.State` of a playbin, as far as the indicator sets it. */
  datatype PlayerState = Null | Paused | Playing

  datatype Player = Player(uri: string, state: PlayerState)

  /**
   * A result row: the index and the song its click handler captured,
   * whether its title has the now-playing colour, and the overlay wrappers
   * on its cover (each named by the id of the animation source made with
   * it). Its labels show the song's name, `ArtistText` and `DurationText`
   * (RowLabels).
   */
  datatype Row = Row(index: nat, song: Song, highlighted: bool, overlays: set<SourceId>)

  /** The texts of a row's title, artist and duration labels. */
  function RowLabels(row: Row): seq<string> {
    [row.song.name, ArtistText(row.song), DurationText(row.song.duration)]
  }

  datatype IndicatorState = IndicatorState(
    // the outside world
    sources: map<SourceId, Source>,
    nextSource: SourceId,
    players: seq<Player>,
    fetches: seq<string>,
    // the Indicator's fields
    currentPlayer: Option<PlayerId>,
    isPlaying: bool,
    pauseIcon: bool,            // the play button shows the pause icon
    progressId: Option<SourceId>,
    searchTimeout: Option<SourceId>,
    spinLoopId: Option<SourceId>,
    spinnerShown: bool,         // `_spinnerBin` is set
    currentOverlay: Option<SourceId>,
    currentPlayingId: Option<SongId>,
    renderedResults: seq<Song>,
    currentIndex: int,
    rowTimeouts: seq<SourceId>,
    rows: seq<Row>,
    songLabel: string,
    artistLabel: string,
    currentTimeLabel: string,
    totalTimeLabel: string,
    scrollHeight: Option<nat>)  // the height the results view was last eased to

  // ---------------------------------------------------------------------
  // Kinds of pending sources

  predicate IsSearch(s: IndicatorState, h: SourceId) {
    h in s.sources && s.sources[h].SearchDebounce?
  }

  predicate IsProgress(s: IndicatorState, h: SourceId) {
    h in s.sources && s.sources[h].ProgressPoll?
  }

  predicate IsSpinner(s: IndicatorState, h: SourceId) {
    h in s.sources && s.sources[h].SpinnerFrame?
  }

  predicate IsRowTimer(s: IndicatorState, h: SourceId) {
    h in s.sources && (s.sources[h].RowEntrance? || s.sources[h].ArtworkLoad?)
  }

  predicate IsOverlay(s: IndicatorState, h: SourceId) {
    h in s.sources && s.sources[h].OverlayFrame?
  }

  function Elems(ids: seq<SourceId>): set<SourceId> {
    set k | 0 <= k < |ids| :: ids[k]
  }

  // ---------------------------------------------------------------------
  // The invariant every handler keeps

  /** Source ids, pending or remembered, are positive and below the next id GLib will hand out. */
  ghost predicate SourcesFresh(s: IndicatorState) {
    && 1 <= s.nextSource
    && (forall h :: h in s.sources ==> 1 <= h < s.nextSource)
    && (forall k :: 0 <= k < |s.rowTimeouts| ==> s.rowTimeouts[k] < s.nextSource)
    && (s.progressId.Some? ==> s.progressId.value < s.nextSource)
  }

  /** `_searchTimeout` names the one pending search timer, if there is one. */
  ghost predicate SearchTimerTracked(s: IndicatorState) {
    && (s.searchTimeout.Some? ==> IsSearch(s, s.searchTimeout.value))
    && forall h: SourceId :: IsSearch(s, h) ==> s.searchTimeout == Some(h)
  }

  /**
   * A pending progress poll is the one `progressId` names; a pending source
   * `progressId` names is a progress poll (the id may be stale).
   */
  ghost predicate ProgressTimerTracked(s: IndicatorState) {
    && (forall h: SourceId :: IsProgress(s, h) ==> s.progressId == Some(h))
    && (s.progressId.Some? && s.progressId.value in s.sources ==> IsProgress(s, s.progressId.value))
  }

  /** The spinner loop runs exactly while the spinner is shown. */
  ghost predicate SpinnerTracked(s: IndicatorState) {
    && (s.spinLoopId.Some? <==> s.spinnerShown)
    && (s.spinLoopId.Some? ==> IsSpinner(s, s.spinLoopId.value))
    && forall h: SourceId :: IsSpinner(s, h) ==> s.spinLoopId == Some(h)
  }

  /**
   * Every pending row-level timer is recorded in `_rowTimeouts`, and every
   * recorded id still pending is a row-level timer (the others have fired).
   */
  ghost predicate RowTimersTracked(s: IndicatorState) {
    && (forall h: SourceId :: IsRowTimer(s, h) ==> h in s.rowTimeouts)
    && (forall k :: 0 <= k < |s.rowTimeouts| && s.rowTimeouts[k] in s.sources ==> IsRowTimer(s, s.rowTimeouts[k]))
  }

  /** The current overlay and every overlay wrapper on a row are animating. */
  ghost predicate OverlaysTracked(s: IndicatorState) {
    && (s.currentOverlay.Some? ==> IsOverlay(s, s.currentOverlay.value))
    && forall k :: 0 <= k < |s.rows| ==> forall t :: t in s.rows[k].overlays ==> IsOverlay(s, t)
  }

  /** The rows shown are those of the rendered results, in order. */
  ghost predicate RowsMatchResults(s: IndicatorState) {
    && (s.rows == [] || |s.rows| == |s.renderedResults|)
    && forall k :: 0 <= k < |s.rows| ==> s.rows[k].index == k
  }

  predicate PlayerInRange(s: IndicatorState) {
    s.currentPlayer.Some? ==> s.currentPlayer.value < |s.players|
  }

  /** Every playbin other than `currentPlayer` has been put into the NULL state. */
  ghost predicate OnePlayerLive(s: IndicatorState) {
    && PlayerInRange(s)
    && forall k :: 0 <= k < |s.players| && s.currentPlayer != Some(k) ==> s.players[k].state == Null
  }

  ghost predicate Inv(s: IndicatorState) {
    && SourcesFresh(s)
    && SearchTimerTracked(s)
    && ProgressTimerTracked(s)
    && SpinnerTracked(s)
    && RowTimersTracked(s)
    && OverlaysTracked(s)
    && RowsMatchResults(s)
    && OnePlayerLive(s)
    && s.pauseIcon == s.isPlaying
    && s.currentIndex >= -1
  }

  /** No overlay animation runs except the current one (not an invariant). */
  ghost predicate OverlayTidy(s: IndicatorState) {
    forall h: SourceId :: IsOverlay(s, h) ==> s.currentOverlay == Some(h)
  }

  // ---------------------------------------------------------------------
  // The main loop: `GLib.timeout_add`/`idle_add` and `GLib.source_remove`

  /** Schedules `src`; its id is `s.nextSource`. */
  function AddSource(s: IndicatorState, src: Source): IndicatorState {
    s.(sources := s.sources[s.nextSource := src], nextSource := s.nextSource + 1)
  }

  /** Removes a source; removing one that already ran is harmless. */
  function RemoveSource(s: IndicatorState, h: SourceId): IndicatorState {
    s.(sources := s.sources - {h})
  }

  // ---------------------------------------------------------------------
  // The handlers

  /** The state `_init` leaves (extension.js:34-50, labels 74-81 and 118-139). */
  function Initial(): IndicatorState {
    IndicatorState(
      map[], 1, [], [],
      None, false, false, None, None, None, false, None, None, [], -1, [], [],
      "Song Name", "Artist Name", "00:00", "00:00", None)
  }

  function CancelSearch(s: IndicatorState): IndicatorState {
    match s.searchTimeout
    case Some(h) => RemoveSource(s, h).(searchTimeout := None)
    case None => s
  }

  /** `_clearAllRows`: cancels every recorded row timer and drops the rows. */
  function ClearAllRows(s: IndicatorState): IndicatorState {
    s.(sources := s.sources - Elems(s.rowTimeouts), rowTimeouts := [], rows := [])
  }

  /** `_createSpinner`: replaces the rows by the spinner, once. */
  function CreateSpinner(s: IndicatorState): IndicatorState {
    if s.spinnerShown then s
    else AddSource(s.(spinnerShown := true, rows := []), SpinnerFrame).(spinLoopId := Some(s.nextSource))
  }

  /** Stops the spinner loop, if it runs, and forgets its id. */
  function StopSpinLoop(s: IndicatorState): IndicatorState {
    match s.spinLoopId
    case Some(h) => RemoveSource(s, h).(spinLoopId := None)
    case None => s
  }

  /** `_destroySpinner`. */
  function DestroySpinner(s: IndicatorState): IndicatorState {
    StopSpinLoop(s).(spinnerShown := false)
  }

  /** The search entry's `text-changed` handler: the trailing debounce. */
  function TextChanged(s: IndicatorState, text: string): IndicatorState {
    var s1 := CancelSearch(s);
    var q := Text.Trim(text);
    if q == "" then
      AddSource(ClearAllRows(DestroySpinner(s1)), ResizeResults(0))
    else
      ScheduleSearch(s1, q)
  }

  /** A non-empty query: the spinner shows and the search waits for the quiet interval. */
  function ScheduleSearch(s: IndicatorState, q: string): IndicatorState {
    var s1 := CreateSpinner(s).(scrollHeight := Some(LOADING_HEIGHT));
    AddSource(s1, SearchDebounce(q)).(searchTimeout := Some(s1.nextSource))
  }

  /** The debounce timer fires: the search is sent and the timer forgotten. */
  function SearchFired(s: IndicatorState, h: SourceId): IndicatorState
    requires IsSearch(s, h)
  {
    RemoveSource(s.(fetches := s.fetches + [s.sources[h].query], searchTimeout := None), h)
  }

  /** The `k`-th outstanding search answers with results, or fails with None. */
  function FetchSettled(s: IndicatorState, k: nat, outcome: Option<seq<Song>>): IndicatorState
    requires k < |s.fetches|
  {
    var s1 := s.(fetches := s.fetches[..k] + s.fetches[k + 1..]);
    match outcome
    case Some(results) => DestroySpinner(RenderResults(s1, results))
    case None => DestroySpinner(s1)
  }

  /** What the row-building loop of `_renderResults` accumulates. */
  datatype RenderAcc = RenderAcc(
    rows: seq<Row>,
    rowTimeouts: seq<SourceId>,
    sources: map<SourceId, Source>,
    next: SourceId,
    overlay: Option<SourceId>)

  /**
   * One turn of the loop for song `r` at index `i`: the row shows song
   * `r`; a playing song gets the now-playing colour and a fresh overlay animation that becomes the
   * current overlay; every row gets an entrance timer.
   */
  function RenderRow(acc: RenderAcc, r: Song, i: nat, playing: Option<SongId>): RenderAcc {
    var restore := playing == Some(r.id);
    var acc1 :=
      if restore then acc.(sources := acc.sources[acc.next := OverlayFrame(0)], next := acc.next + 1, overlay := Some(acc.next))
      else acc;
    var row := Row(i, r, restore, if restore then {acc.next} else {});
    acc1.(sources := acc1.sources[acc1.next := RowEntrance(i, SmallArtwork(r))],
          next := acc1.next + 1,
          rowTimeouts := acc1.rowTimeouts + [acc1.next],
          rows := acc1.rows + [row])
  }

  function RenderRows(results: seq<Song>, playing: Option<SongId>, start: RenderAcc): RenderAcc {
    if results == [] then start
    else
      var n := |results| - 1;
      RenderRow(RenderRows(results[..n], playing, start), results[n], n, playing)
  }

  /** `_renderResults`. */
  function RenderResults(s: IndicatorState, results: seq<Song>): IndicatorState {
    var s1 := ClearAllRows(s.(renderedResults := results));
    var acc := RenderRows(results, s1.currentPlayingId, RenderAcc([], [], s1.sources, s1.nextSource, s1.currentOverlay));
    var s2 := s1.(rows := acc.rows, rowTimeouts := acc.rowTimeouts, sources := acc.sources,
                  nextSource := acc.next, currentOverlay := acc.overlay);
    AddSource(s2, ResizeResults(ResultsHeight(|results|)))
  }

  /** A row's entrance timer fires and schedules the small cover, if it has one. */
  function RowEntranceFired(s: IndicatorState, h: SourceId): IndicatorState
    requires h in s.sources && s.sources[h].RowEntrance?
  {
    var src := s.sources[h];
    var s1 :=
      if Truthy(src.artwork)
      then AddSource(s, ArtworkLoad(src.row, src.artwork.value)).(rowTimeouts := s.rowTimeouts + [s.nextSource])
      else s;
    RemoveSource(s1, h)
  }

  function ArtworkFired(s: IndicatorState, h: SourceId): IndicatorState
    requires h in s.sources && s.sources[h].ArtworkLoad?
  {
    RemoveSource(s, h)
  }

  function ResizeFired(s: IndicatorState, h: SourceId): IndicatorState
    requires h in s.sources && s.sources[h].ResizeResults?
  {
    RemoveSource(s.(scrollHeight := Some(s.sources[h].height)), h)
  }

  /** An overlay animation tick: the next soundbar frame. */
  function OverlayFrameFired(s: IndicatorState, h: SourceId): IndicatorState
    requires IsOverlay(s, h)
  {
    s.(sources := s.sources[h := OverlayFrame(NextFrame(s.sources[h].frame))])
  }

  function DropWrapper(rows: seq<Row>, t: SourceId): seq<Row> {
    seq(|rows|, k requires 0 <= k < |rows| => rows[k].(overlays := rows[k].overlays - {t}))
  }

  function AddWrapper(rows: seq<Row>, i: nat, t: SourceId): seq<Row>
    requires i < |rows|
  {
    rows[i := rows[i].(overlays := rows[i].overlays + {t})]
  }

  /** Every row's title back to its original style. */
  function ResetTitles(rows: seq<Row>): seq<Row> {
    seq(|rows|, k requires 0 <= k < |rows| => rows[k].(highlighted := false))
  }

  function HighlightOnly(rows: seq<Row>, i: nat): seq<Row> {
    seq(|rows|, k requires 0 <= k < |rows| => rows[k].(highlighted := k == i))
  }

  /** Stops the current overlay animation and destroys its wrapper. */
  function CancelOverlay(s: IndicatorState): IndicatorState {
    match s.currentOverlay
    case Some(t) => RemoveSource(s, t).(rows := DropWrapper(s.rows, t), currentOverlay := None)
    case None => s
  }

  /**
   * The first half of a click on row `i` (it runs whatever the song is):
   * the row becomes the current index, the previous overlay animation is
   * cancelled and its wrapper destroyed, the row gets a fresh overlay,
   * only its title keeps the now-playing colour, and its song id becomes
   * the playing id.
   */
  function SelectRow(s: IndicatorState, i: nat): IndicatorState
    requires i < |s.rows| && i < |s.renderedResults|
  {
    var s1 := CancelOverlay(s.(currentIndex := i));
    var t := s1.nextSource;
    var s2 := AddSource(s1, OverlayFrame(0)).(rows := AddWrapper(s1.rows, i, t), currentOverlay := Some(t));
    s2.(rows := HighlightOnly(s2.rows, i), currentPlayingId := Some(s.renderedResults[i].id))
  }

  /**
   * The click handler of row `i`; `made` says whether GStreamer can make
   * a playbin. Only a song with a 320kbps link is played.
   */
  function RowClicked(s: IndicatorState, i: nat, made: bool): IndicatorState
    requires i < |s.rows| && i < |s.renderedResults| && PlayerInRange(s)
  {
    var r := s.renderedResults[i];
    var s1 := SelectRow(s, i);
    match AudioUrl(r)
    case None => s1
    case Some(url) => PlayAudio(s1.(songLabel := r.name, artistLabel := ArtistText(r)), url, made)
  }

  function StopPlayer(players: seq<Player>, p: PlayerId): seq<Player>
    requires p < |players|
  {
    players[p := players[p].(state := Null)]
  }

  /** The current playbin, if any, is put into NULL and dropped. */
  function ReleasePlayer(s: IndicatorState): IndicatorState
    requires PlayerInRange(s)
  {
    match s.currentPlayer
    case Some(p) => s.(players := StopPlayer(s.players, p), currentPlayer := None)
    case None => s
  }

  /** A new playbin for `url` becomes the current player and plays. */
  function LaunchPlayer(s: IndicatorState, url: string): IndicatorState {
    s.(players := s.players + [Player(PlaybackUri(url), Playing)],
       currentPlayer := Some(|s.players|), isPlaying := true, pauseIcon := true)
  }

  /** `_playAudio`; `made` says whether `Gst.ElementFactory.make` returned a playbin. */
  function PlayAudio(s: IndicatorState, url: string, made: bool): IndicatorState
    requires PlayerInRange(s)
  {
    var s1 := ReleasePlayer(s);
    if !made then s1 else StartTrackingProgress(LaunchPlayer(s1, url))
  }

  /** `_startTrackingProgress`: replaces the progress poll by a fresh one. */
  function StartTrackingProgress(s: IndicatorState): IndicatorState {
    if s.currentPlayer.None? then s
    else AddPoll(DropPoll(s))
  }

  /** Removes the source `progressId` names, if any, keeping the (now stale) id. */
  function DropPoll(s: IndicatorState): IndicatorState {
    match s.progressId
    case Some(h) => RemoveSource(s, h)
    case None => s
  }

  /** Schedules a progress poll and records its id. */
  function AddPoll(s: IndicatorState): IndicatorState {
    AddSource(s, ProgressPoll).(progressId := Some(s.nextSource))
  }

  /** The end-of-track branch before `_playNext`: the poll is cancelled and the playbin put into NULL. */
  function TrackEnded(s: IndicatorState, p: PlayerId): IndicatorState
    requires p < |s.players|
  {
    var s1 := DropPoll(s);
    s1.(progressId := None, players := StopPlayer(s1.players, p))
  }

  /**
   * One tick of the progress poll, given the answers of the position and
   * duration queries. With no player the queries throw, and the source is
   * dropped.
   */
  function ProgressTick(s: IndicatorState, h: SourceId, okPos: bool, pos: int, okDur: bool, dur: int,
                        made: bool): IndicatorState
    requires IsProgress(s, h) && PlayerInRange(s)
  {
    match s.currentPlayer
    case None => RemoveSource(s, h)
    case Some(p) =>
      if AtTrackEnd(okPos, pos, okDur, dur) then
        RemoveSource(PlayNext(TrackEnded(s, p), made), h)
      else if okPos && okDur && dur > 0 then
        s.(currentTimeLabel := ClockLabel(pos), totalTimeLabel := ClockLabel(dur))
      else s
  }

  /** `_togglePlayPause`. */
  function TogglePlayPause(s: IndicatorState): IndicatorState
    requires PlayerInRange(s)
  {
    match s.currentPlayer
    case None => s
    case Some(p) =>
      if s.isPlaying then
        s.(players := s.players[p := s.players[p].(state := Paused)], isPlaying := false, pauseIcon := false)
      else
        s.(players := s.players[p := s.players[p].(state := Playing)], isPlaying := true, pauseIcon := true)
  }

  /** Clicks row `target` when both a song and a row are at that index. */
  function ClickIfPresent(s: IndicatorState, target: int, made: bool): IndicatorState
    requires PlayerInRange(s)
  {
    if 0 <= target < |s.renderedResults| && target < |s.rows| then RowClicked(s, target, made) else s
  }

  /** `_playPrevious`. */
  function PlayPrevious(s: IndicatorState, made: bool): IndicatorState
    requires PlayerInRange(s)
  {
    if |s.renderedResults| == 0 then s
    else ClickIfPresent(s, PrevIndex(s.currentIndex, |s.renderedResults|), made)
  }

  /** `_playNext`. */
  function PlayNext(s: IndicatorState, made: bool): IndicatorState
    requires PlayerInRange(s)
  {
    if |s.renderedResults| == 0 then s
    else ClickIfPresent(s, NextIndex(s.currentIndex, |s.renderedResults|), made)
  }

  /** Cancels the progress poll, if one is recorded, and forgets its id. */
  function StopPolling(s: IndicatorState): IndicatorState {
    match s.progressId
    case Some(h) => RemoveSource(s, h).(progressId := None)
    case None => s
  }

  /** `destroy`: cancels the indicator's timers; the player is left alone. */
  function Destroy(s: IndicatorState): IndicatorState {
    ClearAllRows(CancelOverlay(StopSpinLoop(StopPolling(CancelSearch(s)))))
  }

  /** The seek bar issues a seek only with a player and a known, positive duration. */
  predicate SeekAllowed(s: IndicatorState, okDur: bool, dur: int) {
    s.currentPlayer.Some? && okDur && dur > 0
  }
}
