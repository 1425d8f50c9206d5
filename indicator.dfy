/**
 * The `Indicator` object itself: its fields, updated in place by its
 * handlers in the order the source runs them. The GLib main loop's pending
 * sources, the playbins made so far and the outstanding search requests
 * are kept beside the fields, so that every handler's effect on them is
 * visible. Every handler is proved to leave exactly the state the matching
 * function of Controller describes, and to keep the invariant there; the
 * properties of that state are proved in ControllerLemmas.
 */
module IndicatorClass {
  import opened Wrappers
  import opened Catalog
  import opened Format
  import opened Playback
  import opened Layout
  import opened Controller
  import ControllerLemmas
  import Text

  class Indicator {
    // the outside world
    var sources: map<SourceId, Source>
    var nextSource: SourceId
    var players: seq<Player>
    var fetches: seq<string>
    // the Indicator's fields
    var currentPlayer: Option<PlayerId>
    var isPlaying: bool
    var pauseIcon: bool
    var progressId: Option<SourceId>
    var searchTimeout: Option<SourceId>
    var spinLoopId: Option<SourceId>
    var spinnerShown: bool
    var currentOverlay: Option<SourceId>
    var currentPlayingId: Option<SongId>
    var renderedResults: seq<Song>
    var currentIndex: int
    var rowTimeouts: seq<SourceId>
    var rows: seq<Row>
    var songLabel: string
    var artistLabel: string
    var currentTimeLabel: string
    var totalTimeLabel: string
    var scrollHeight: Option<nat>

    /** The object's fields as a Controller state. */
    function State(): IndicatorState
      reads this
    {
      IndicatorState(
        sources, nextSource, players, fetches,
        currentPlayer, isPlaying, pauseIcon, progressId, searchTimeout, spinLoopId, spinnerShown,
        currentOverlay, currentPlayingId, renderedResults, currentIndex, rowTimeouts, rows,
        songLabel, artistLabel, currentTimeLabel, totalTimeLabel, scrollHeight)
    }

    ghost predicate Valid()
      reads this
    {
      Inv(State())
    }

    /** `_init`: no player, no timers, no rows, the placeholder labels. */
    constructor ()
      ensures State() == Initial() && Valid()
    {
      sources, nextSource, players, fetches := map[], 1, [], [];
      currentPlayer, isPlaying, pauseIcon := None, false, false;
      progressId, searchTimeout, spinLoopId, spinnerShown := None, None, None, false;
      currentOverlay, currentPlayingId, renderedResults, currentIndex := None, None, [], -1;
      rowTimeouts, rows := [], [];
      songLabel, artistLabel := "Song Name", "Artist Name";
      currentTimeLabel, totalTimeLabel := "00:00", "00:00";
      scrollHeight := None;
      ControllerLemmas.InitialInv();
    }

    // -------------------------------------------------------------------
    // Field writes: proof steps with no counterpart of their own in the
    // source, one assignment each, so that every handler below is a
    // sequence of steps whose effect on State() is stated once

    method SetSources(v: map<SourceId, Source>)
      modifies this
      ensures State() == old(State()).(sources := v)
    {
      sources := v;
    }

    method SetNextSource(v: SourceId)
      modifies this
      ensures State() == old(State()).(nextSource := v)
    {
      nextSource := v;
    }

    method SetPlayers(v: seq<Player>)
      modifies this
      ensures State() == old(State()).(players := v)
    {
      players := v;
    }

    method SetFetches(v: seq<string>)
      modifies this
      ensures State() == old(State()).(fetches := v)
    {
      fetches := v;
    }

    method SetCurrentPlayer(v: Option<PlayerId>)
      modifies this
      ensures State() == old(State()).(currentPlayer := v)
    {
      currentPlayer := v;
    }

    method SetIsPlaying(v: bool)
      modifies this
      ensures State() == old(State()).(isPlaying := v)
    {
      isPlaying := v;
    }

    method SetPauseIcon(v: bool)
      modifies this
      ensures State() == old(State()).(pauseIcon := v)
    {
      pauseIcon := v;
    }

    method SetProgressId(v: Option<SourceId>)
      modifies this
      ensures State() == old(State()).(progressId := v)
    {
      progressId := v;
    }

    method SetSearchTimeout(v: Option<SourceId>)
      modifies this
      ensures State() == old(State()).(searchTimeout := v)
    {
      searchTimeout := v;
    }

    method SetSpinLoopId(v: Option<SourceId>)
      modifies this
      ensures State() == old(State()).(spinLoopId := v)
    {
      spinLoopId := v;
    }

    method SetSpinnerShown(v: bool)
      modifies this
      ensures State() == old(State()).(spinnerShown := v)
    {
      spinnerShown := v;
    }

    method SetCurrentOverlay(v: Option<SourceId>)
      modifies this
      ensures State() == old(State()).(currentOverlay := v)
    {
      currentOverlay := v;
    }

    method SetCurrentPlayingId(v: Option<SongId>)
      modifies this
      ensures State() == old(State()).(currentPlayingId := v)
    {
      currentPlayingId := v;
    }

    method SetRenderedResults(v: seq<Song>)
      modifies this
      ensures State() == old(State()).(renderedResults := v)
    {
      renderedResults := v;
    }

    method SetCurrentIndex(v: int)
      modifies this
      ensures State() == old(State()).(currentIndex := v)
    {
      currentIndex := v;
    }

    method SetRowTimeouts(v: seq<SourceId>)
      modifies this
      ensures State() == old(State()).(rowTimeouts := v)
    {
      rowTimeouts := v;
    }

    method SetRows(v: seq<Row>)
      modifies this
      ensures State() == old(State()).(rows := v)
    {
      rows := v;
    }

    method SetSongLabel(v: string)
      modifies this
      ensures State() == old(State()).(songLabel := v)
    {
      songLabel := v;
    }

    method SetArtistLabel(v: string)
      modifies this
      ensures State() == old(State()).(artistLabel := v)
    {
      artistLabel := v;
    }

    method SetCurrentTimeLabel(v: string)
      modifies this
      ensures State() == old(State()).(currentTimeLabel := v)
    {
      currentTimeLabel := v;
    }

    method SetTotalTimeLabel(v: string)
      modifies this
      ensures State() == old(State()).(totalTimeLabel := v)
    {
      totalTimeLabel := v;
    }

    method SetScrollHeight(v: Option<nat>)
      modifies this
      ensures State() == old(State()).(scrollHeight := v)
    {
      scrollHeight := v;
    }

    // -------------------------------------------------------------------
    // The main loop

    /** `GLib.timeout_add`/`idle_add`: schedules `src` under the next id. */
    method TimeoutAdd(src: Source) returns (id: SourceId)
      modifies this
      ensures id == old(nextSource)
      ensures State() == AddSource(old(State()), src)
    {
      id := nextSource;
      SetSources(sources[id := src]);
      SetNextSource(nextSource + 1);
    }

    /** `GLib.source_remove`. */
    method SourceRemove(h: SourceId)
      modifies this
      ensures State() == RemoveSource(old(State()), h)
    {
      SetSources(sources - {h});
    }

    // -------------------------------------------------------------------
    // Search

    method CancelSearch()
      modifies this
      ensures State() == Controller.CancelSearch(old(State()))
    {
      if searchTimeout.Some? {
        SourceRemove(searchTimeout.value);
        SetSearchTimeout(None);
      }
    }

    /** The `text-changed` handler of the search entry. */
    method TextChanged(text: string)
      modifies this
      ensures State() == Controller.TextChanged(old(State()), text)
      ensures old(Valid()) ==> Valid()
    {
      ghost var s0 := State();
      CancelSearch();
      var q := Text.Trim(text);
      if q == "" {
        DestroySpinner();
        ClearAllRows();
        var _ := TimeoutAdd(ResizeResults(0));
      } else {
        CreateSpinner();
        SetScrollHeight(Some(LOADING_HEIGHT));
        var id := TimeoutAdd(SearchDebounce(q));
        SetSearchTimeout(Some(id));
      }
      if Inv(s0) {
        ControllerLemmas.TextChangedInv(s0, text);
      }
    }

    /** The debounce timer `h` fires: its query is sent. */
    method SearchFired(h: SourceId)
      requires IsSearch(State(), h)
      modifies this
      ensures State() == Controller.SearchFired(old(State()), h)
      ensures old(Valid()) ==> Valid()
    {
      ghost var s0 := State();
      SetFetches(fetches + [sources[h].query]);
      SetSearchTimeout(None);
      SourceRemove(h);
      if Inv(s0) {
        ControllerLemmas.SearchFiredSends(s0, h);
      }
    }

    /** The `k`-th outstanding search settles: `then` renders, both paths drop the spinner. */
    method FetchSettled(k: nat, outcome: Option<seq<Song>>)
      requires k < |fetches|
      modifies this
      ensures State() == Controller.FetchSettled(old(State()), k, outcome)
      ensures old(Valid()) ==> Valid()
    {
      ghost var s0 := State();
      SetFetches(fetches[..k] + fetches[k + 1..]);
      if outcome.Some? {
        RenderResults(outcome.value);
      }
      DestroySpinner();
      if Inv(s0) {
        ControllerLemmas.FetchSettledShows(s0, k, outcome);
      }
    }

    // -------------------------------------------------------------------
    // Rows

    /** `_clearAllRows`: every recorded row timer is removed, then the list and the rows dropped. */
    method ClearAllRows()
      modifies this
      ensures State() == Controller.ClearAllRows(old(State()))
    {
      var ids := rowTimeouts;
      for k := 0 to |ids|
        invariant sources == old(sources) - Elems(ids[..k])
        invariant State() == old(State()).(sources := sources)
      {
        RemoveOneMore(old(sources), ids, k);
        SourceRemove(ids[k]);
      }
      assert ids[..|ids|] == ids;
      SetRowTimeouts([]);
      SetRows([]);
    }

    /** Removing `ids[k]` after `ids[..k]` removes `ids[..k + 1]`. */
    static lemma RemoveOneMore(m: map<SourceId, Source>, ids: seq<SourceId>, k: nat)
      requires k < |ids|
      ensures m - Elems(ids[..k]) - {ids[k]} == m - Elems(ids[..k + 1])
    {
      assert Elems(ids[..k + 1]) == Elems(ids[..k]) + {ids[k]} by {
        assert forall j :: 0 <= j < k ==> ids[..k + 1][j] == ids[..k][j];
        assert ids[..k + 1][k] == ids[k];
      }
    }

    /** `_createSpinner`: once, the rows give way to the spinner and its loop starts. */
    method CreateSpinner()
      modifies this
      ensures State() == Controller.CreateSpinner(old(State()))
    {
      if spinnerShown {
        return;
      }
      SetSpinnerShown(true);
      SetRows([]);
      var id := TimeoutAdd(SpinnerFrame);
      SetSpinLoopId(Some(id));
    }

    method StopSpinLoop()
      modifies this
      ensures State() == Controller.StopSpinLoop(old(State()))
    {
      if spinLoopId.Some? {
        SourceRemove(spinLoopId.value);
        SetSpinLoopId(None);
      }
    }

    /** `_destroySpinner`. */
    method DestroySpinner()
      modifies this
      ensures State() == Controller.DestroySpinner(old(State()))
    {
      StopSpinLoop();
      SetSpinnerShown(false);
    }

    /**
     * `_renderResults`: the rows are cleared, then one row per song is
     * built in order, restoring the overlay on the playing song's row and
     * scheduling each row's entrance; last the results view is resized.
     */
    method RenderResults(results: seq<Song>)
      modifies this
      ensures State() == Controller.RenderResults(old(State()), results)
      ensures old(Valid()) ==> Valid()
    {
      ghost var s0 := State();
      SetRenderedResults(results);
      ClearAllRows();
      ghost var s1 := State();
      ghost var start := RenderAcc([], [], s1.sources, s1.nextSource, s1.currentOverlay);
      for i := 0 to |results|
        invariant RenderRows(results[..i], s1.currentPlayingId, start) == Acc()
        invariant State() == s1.(rows := rows, rowTimeouts := rowTimeouts, sources := sources,
                                 nextSource := nextSource, currentOverlay := currentOverlay)
      {
        RenderRow(results[i], i);
        assert results[..i + 1][..i] == results[..i];
      }
      assert results[..|results|] == results;
      var _ := TimeoutAdd(ResizeResults(ResultsHeight(|results|)));
      if Inv(s0) {
        ControllerLemmas.RenderResultsInv(s0, results);
      }
    }

    /** The part of the state the render loop builds. */
    function Acc(): RenderAcc
      reads this
    {
      RenderAcc(rows, rowTimeouts, sources, nextSource, currentOverlay)
    }

    /** One turn of the render loop: the row for song `r` at index `i`. */
    method RenderRow(r: Song, i: nat)
      modifies this
      ensures Acc() == Controller.RenderRow(old(Acc()), r, i, old(currentPlayingId))
      ensures State() == old(State()).(rows := rows, rowTimeouts := rowTimeouts, sources := sources,
                                       nextSource := nextSource, currentOverlay := currentOverlay)
    {
      ghost var a0 := Acc();
      var row := Row(i, r, false, {});
      var restore := currentPlayingId == Some(r.id);
      if restore {
        var t := TimeoutAdd(OverlayFrame(0));
        SetCurrentOverlay(Some(t));
        row := row.(highlighted := true, overlays := {t});
      }
      assert Acc() == if restore then a0.(sources := a0.sources[a0.next := OverlayFrame(0)], next := a0.next + 1, overlay := Some(a0.next)) else a0;
      var startId := TimeoutAdd(RowEntrance(i, SmallArtwork(r)));
      SetRowTimeouts(rowTimeouts + [startId]);
      SetRows(rows + [row]);
    }

    /** A row's entrance timer fires: the small cover is scheduled, when the song has one. */
    method RowEntranceFired(h: SourceId)
      requires h in sources && sources[h].RowEntrance?
      modifies this
      ensures State() == Controller.RowEntranceFired(old(State()), h)
      ensures old(Valid()) ==> Valid()
    {
      ghost var s0 := State();
      var src := sources[h];
      if Truthy(src.artwork) {
        var id := TimeoutAdd(ArtworkLoad(src.row, src.artwork.value));
        SetRowTimeouts(rowTimeouts + [id]);
      }
      SourceRemove(h);
      if Inv(s0) {
        ControllerLemmas.RowEntranceFiredShows(s0, h);
      }
    }

    method ArtworkFired(h: SourceId)
      requires h in sources && sources[h].ArtworkLoad?
      modifies this
      ensures State() == Controller.ArtworkFired(old(State()), h)
      ensures old(Valid()) ==> Valid()
    {
      ghost var s0 := State();
      SourceRemove(h);
      if Inv(s0) {
        ControllerLemmas.ArtworkFiredInv(s0, h);
      }
    }

    method ResizeFired(h: SourceId)
      requires h in sources && sources[h].ResizeResults?
      modifies this
      ensures State() == Controller.ResizeFired(old(State()), h)
      ensures old(Valid()) ==> Valid()
    {
      ghost var s0 := State();
      SetScrollHeight(Some(sources[h].height));
      SourceRemove(h);
      if Inv(s0) {
        ControllerLemmas.ResizeFiredShows(s0, h);
      }
    }

    /** An overlay animation tick: the source stays, at the next frame. */
    method OverlayFrameFired(h: SourceId)
      requires IsOverlay(State(), h)
      modifies this
      ensures State() == Controller.OverlayFrameFired(old(State()), h)
      ensures old(Valid()) ==> Valid()
    {
      ghost var s0 := State();
      SetSources(sources[h := OverlayFrame(NextFrame(sources[h].frame))]);
      if Inv(s0) {
        ControllerLemmas.OverlayFrameFiredShows(s0, h);
      }
    }

    // -------------------------------------------------------------------
    // Clicks and playback

    /** Stops the current overlay animation and destroys its wrapper. */
    method CancelOverlay()
      modifies this
      ensures State() == Controller.CancelOverlay(old(State()))
    {
      if currentOverlay.Some? {
        var t := currentOverlay.value;
        SourceRemove(t);
        SetRows(DropWrapper(rows, t));
        SetCurrentOverlay(None);
      }
    }

    /** "Reset styles on all other rows": every title back to its original style. */
    method ResetTitles()
      modifies this
      ensures State() == old(State()).(rows := Controller.ResetTitles(old(rows)))
    {
      for k := 0 to |rows|
        invariant |rows| == |old(rows)|
        invariant forall j :: 0 <= j < |rows| ==>
                    rows[j] == if j < k then old(rows)[j].(highlighted := false) else old(rows)[j]
        invariant State() == old(State()).(rows := rows)
      {
        SetRows(rows[k := rows[k].(highlighted := false)]);
      }
    }

    /**
     * The clicked row becomes current: its overlay starts, the titles are
     * reset, its song id becomes the playing id and its title is coloured.
     */
    method SelectRow(i: nat)
      requires i < |rows| && i < |renderedResults|
      modifies this
      ensures State() == Controller.SelectRow(old(State()), i)
    {
      var id := renderedResults[i].id;
      SetCurrentIndex(i);
      CancelOverlay();
      var t := TimeoutAdd(OverlayFrame(0));
      SetRows(AddWrapper(rows, i, t));
      SetCurrentOverlay(Some(t));
      ghost var wrapped := rows;
      ResetTitles();
      SetCurrentPlayingId(Some(id));
      SetRows(rows[i := rows[i].(highlighted := true)]);
      assert rows == HighlightOnly(wrapped, i);
    }

    /** The click handler of row `i`; `made` says whether a playbin can be made. */
    method RowClicked(i: nat, made: bool)
      requires i < |rows| && i < |renderedResults| && PlayerInRange(State())
      modifies this
      ensures State() == Controller.RowClicked(old(State()), i, made)
      ensures old(Valid()) ==> Valid()
    {
      ghost var s0 := State();
      var r := renderedResults[i];
      SelectRow(i);
      var audioUrl := AudioUrl(r);
      if audioUrl.None? {
        if Inv(s0) {
          ControllerLemmas.RowClickedSelects(s0, i, made);
        }
        return;
      }
      SetSongLabel(r.name);
      SetArtistLabel(ArtistText(r));
      PlayAudio(audioUrl.value, made);
      if Inv(s0) {
        ControllerLemmas.RowClickedSelects(s0, i, made);
      }
    }

    /** `_playAudio`; `made` says whether `Gst.ElementFactory.make` returned a playbin. */
    method PlayAudio(url: string, made: bool)
      requires PlayerInRange(State())
      modifies this
      ensures State() == Controller.PlayAudio(old(State()), url, made)
    {
      ReleasePlayer();
      if !made {
        return;
      }
      LaunchPlayer(url);
      StartTrackingProgress();
    }

    /** The current playbin, if any, is put into NULL and dropped. */
    method ReleasePlayer()
      requires PlayerInRange(State())
      modifies this
      ensures State() == Controller.ReleasePlayer(old(State()))
    {
      if currentPlayer.Some? {
        SetPlayers(StopPlayer(players, currentPlayer.value));
        SetCurrentPlayer(None);
      }
    }

    /** The new playbin is given its URI, set to PLAYING and made current. */
    method LaunchPlayer(url: string)
      modifies this
      ensures State() == Controller.LaunchPlayer(old(State()), url)
    {
      SetCurrentPlayer(Some(|players|));
      SetPlayers(players + [Player(PlaybackUri(url), Playing)]);
      SetIsPlaying(true);
      SetPauseIcon(true);
    }

    /** `_startTrackingProgress`: a fresh poll replaces the recorded one. */
    method StartTrackingProgress()
      modifies this
      ensures State() == Controller.StartTrackingProgress(old(State()))
    {
      if currentPlayer.None? {
        return;
      }
      if progressId.Some? {
        SourceRemove(progressId.value);
      }
      var id := TimeoutAdd(ProgressPoll);
      SetProgressId(Some(id));
    }

    /**
     * One tick of the progress poll `h`, given the position and duration
     * queries' answers; at the end of a track it advances to the next row.
     */
    method ProgressTick(h: SourceId, okPos: bool, pos: int, okDur: bool, dur: int, made: bool)
      requires IsProgress(State(), h) && PlayerInRange(State())
      modifies this
      ensures State() == Controller.ProgressTick(old(State()), h, okPos, pos, okDur, dur, made)
      ensures old(Valid()) ==> Valid()
    {
      ghost var s0 := State();
      if currentPlayer.None? {
        SourceRemove(h);
        if Inv(s0) {
          ControllerLemmas.ProgressTickNoPlayer(s0, h, okPos, pos, okDur, dur, made);
        }
      } else if okPos && okDur && dur > 0 && pos >= dur - MSECOND * 200 {
        assert AtTrackEnd(okPos, pos, okDur, dur);
        TrackEnded(currentPlayer.value);
        PlayNext(made);
        SourceRemove(h);
        if Inv(s0) {
          ControllerLemmas.ProgressTickAdvances(s0, h, okPos, pos, okDur, dur, made);
        }
      } else {
        assert !AtTrackEnd(okPos, pos, okDur, dur);
        if okPos && okDur && dur > 0 {
          ShowClock(pos, dur);
        }
        if Inv(s0) {
          ControllerLemmas.ProgressTickPolls(s0, h, okPos, pos, okDur, dur, made);
        }
      }
    }

    /** The end of the track: the poll is cancelled and forgotten, and playbin `p` put into NULL. */
    method TrackEnded(p: PlayerId)
      requires p < |players|
      modifies this
      ensures State() == Controller.TrackEnded(old(State()), p)
    {
      if progressId.Some? {
        SourceRemove(progressId.value);
      }
      SetProgressId(None);
      SetPlayers(StopPlayer(players, p));
    }

    /** The elapsed and total time labels show `pos` and `dur`. */
    method ShowClock(pos: int, dur: int)
      modifies this
      ensures State() == old(State()).(currentTimeLabel := ClockLabel(pos), totalTimeLabel := ClockLabel(dur))
    {
      SetCurrentTimeLabel(ClockLabel(pos));
      SetTotalTimeLabel(ClockLabel(dur));
    }

    /** `_togglePlayPause`. */
    method TogglePlayPause()
      requires PlayerInRange(State())
      modifies this
      ensures State() == Controller.TogglePlayPause(old(State()))
      ensures old(Valid()) ==> Valid()
    {
      ghost var s0 := State();
      if currentPlayer.None? {
        return;
      }
      var p := currentPlayer.value;
      if isPlaying {
        SetPlayers(players[p := players[p].(state := Paused)]);
        SetIsPlaying(false);
        SetPauseIcon(false);
      } else {
        SetPlayers(players[p := players[p].(state := Playing)]);
        SetIsPlaying(true);
        SetPauseIcon(true);
      }
      if Inv(s0) {
        ControllerLemmas.TogglePlayPauseShows(s0);
      }
    }

    /** A click on row `target`, when there is such a row. */
    method ClickIfPresent(target: int, made: bool)
      requires PlayerInRange(State())
      modifies this
      ensures State() == Controller.ClickIfPresent(old(State()), target, made)
      ensures old(Valid()) ==> Valid()
    {
      if 0 <= target < |renderedResults| && target < |rows| {
        RowClicked(target, made);
      }
    }

    /** `_playPrevious`: a click on the row before the current one, wrapping to the last. */
    method PlayPrevious(made: bool)
      requires PlayerInRange(State())
      modifies this
      ensures State() == Controller.PlayPrevious(old(State()), made)
      ensures old(Valid()) ==> Valid()
    {
      if |renderedResults| == 0 {
        return;
      }
      var prevIndex := currentIndex - 1;
      if prevIndex < 0 {
        prevIndex := |renderedResults| - 1;
      }
      assert prevIndex == PrevIndex(currentIndex, |renderedResults|);
      ClickIfPresent(prevIndex, made);
    }

    /** `_playNext`: a click on the row after the current one, wrapping to the first. */
    method PlayNext(made: bool)
      requires PlayerInRange(State())
      modifies this
      ensures State() == Controller.PlayNext(old(State()), made)
      ensures old(Valid()) ==> Valid()
    {
      if |renderedResults| == 0 {
        return;
      }
      var nextIndex := currentIndex + 1;
      if nextIndex >= |renderedResults| {
        nextIndex := 0;
      }
      assert nextIndex == NextIndex(currentIndex, |renderedResults|);
      ClickIfPresent(nextIndex, made);
    }

    /** Whether releasing the seek bar seeks: only with a player and a known, positive duration. */
    method SeekDragEnd(okDur: bool, dur: int) returns (seeks: bool)
      ensures seeks == SeekAllowed(State(), okDur, dur)
    {
      if currentPlayer.None? {
        return false;
      }
      if !okDur || dur <= 0 {
        return false;
      }
      return true;
    }

    // -------------------------------------------------------------------
    // Teardown

    method StopPolling()
      modifies this
      ensures State() == Controller.StopPolling(old(State()))
    {
      if progressId.Some? {
        SourceRemove(progressId.value);
        SetProgressId(None);
      }
    }

    /** `destroy`: the search timer, the poll, the spinner loop, the overlay and the row timers go. */
    method Destroy()
      modifies this
      ensures State() == Controller.Destroy(old(State()))
    {
      CancelSearch();
      StopPolling();
      StopSpinLoop();
      CancelOverlay();
      ClearAllRows();
    }
  }
}
