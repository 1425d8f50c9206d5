/**
 * What the controller's handlers guarantee: each keeps the invariant
 * `Inv`, and each does what the indicator promises its user.
 */
module ControllerLemmas {
  import opened Wrappers
  import Text
  import opened Catalog
  import opened Format
  import opened Playback
  import opened Layout
  import opened Controller

  /** Sources only disappear, and new ones get ids never used before. */
  ghost predicate OnlyFreshAdded(s: IndicatorState, t: IndicatorState) {
    && s.nextSource <= t.nextSource
    && forall h :: h in t.sources && h < s.nextSource ==> h in s.sources
  }

  // ---------------------------------------------------------------------
  // Removing and adding sources

  /** Cancelling sources that no field and no row names keeps the invariant. */
  lemma RemoveUnnamedInv(s: IndicatorState, H: set<SourceId>)
    requires Inv(s)
    requires s.searchTimeout.Some? ==> s.searchTimeout.value !in H
    requires s.spinLoopId.Some? ==> s.spinLoopId.value !in H
    requires s.currentOverlay.Some? ==> s.currentOverlay.value !in H
    requires forall k, t :: 0 <= k < |s.rows| && t in s.rows[k].overlays ==> t !in H
    ensures Inv(s.(sources := s.sources - H))
  {
    var u := s.(sources := s.sources - H);
    assert forall h: SourceId :: IsSearch(u, h) ==> IsSearch(s, h);
    assert forall h: SourceId :: IsProgress(u, h) ==> IsProgress(s, h);
    assert forall h: SourceId :: IsSpinner(u, h) ==> IsSpinner(s, h);
    assert forall h: SourceId :: IsRowTimer(u, h) ==> IsRowTimer(s, h);
    forall k, t | 0 <= k < |u.rows| && t in u.rows[k].overlays
      ensures IsOverlay(u, t)
    {
      assert IsOverlay(s, t);
    }
  }

  /** Scheduling a results resize keeps the invariant. */
  lemma AddResizeInv(s: IndicatorState, height: nat)
    requires Inv(s)
    ensures Inv(AddSource(s, ResizeResults(height)))
  {
    var u := AddSource(s, ResizeResults(height));
    assert forall h: SourceId :: IsSearch(u, h) ==> IsSearch(s, h);
    assert forall h: SourceId :: IsProgress(u, h) ==> IsProgress(s, h);
    assert forall h: SourceId :: IsSpinner(u, h) ==> IsSpinner(s, h);
    assert forall h: SourceId :: IsRowTimer(u, h) ==> IsRowTimer(s, h);
    forall k, t | 0 <= k < |u.rows| && t in u.rows[k].overlays
      ensures IsOverlay(u, t)
    {
      assert IsOverlay(s, t);
    }
  }

  lemma InitialInv()
    ensures Inv(Initial())
  {
  }

  // ---------------------------------------------------------------------
  // Rows

  /** `_clearAllRows` leaves no row, no recorded row timer and no row timer pending. */
  lemma ClearAllRowsCancels(s: IndicatorState)
    requires Inv(s)
    ensures var t := ClearAllRows(s);
            && Inv(t)
            && t.rows == [] && t.rowTimeouts == []
            && (forall k :: 0 <= k < |s.rowTimeouts| ==> s.rowTimeouts[k] !in t.sources)
            && (forall h: SourceId :: !IsRowTimer(t, h))
            && (forall h :: h in t.sources ==> h in s.sources && t.sources[h] == s.sources[h])
            && (forall h: SourceId :: h in s.sources && !IsRowTimer(s, h) ==> h in t.sources)
            && t == s.(sources := t.sources, rowTimeouts := [], rows := [])
  {
    var t := ClearAllRows(s);
    var H := Elems(s.rowTimeouts);
    forall k | 0 <= k < |s.rowTimeouts|
      ensures s.rowTimeouts[k] in H
    {
    }
    forall h: SourceId | IsRowTimer(t, h)
      ensures false
    {
      assert IsRowTimer(s, h);
    }
    forall h: SourceId | h in s.sources && !IsRowTimer(s, h)
      ensures h !in H
    {
    }
    assert forall h: SourceId :: IsSearch(t, h) ==> IsSearch(s, h);
    assert forall h: SourceId :: IsProgress(t, h) ==> IsProgress(s, h);
    assert forall h: SourceId :: IsSpinner(t, h) ==> IsSpinner(s, h);
  }

  /** Cancelling the debounce keeps the invariant and leaves no search timer. */
  lemma CancelSearchInv(s: IndicatorState)
    requires Inv(s)
    ensures var t := CancelSearch(s);
            && Inv(t)
            && t.searchTimeout.None? && (forall h: SourceId :: !IsSearch(t, h))
            && t.sources == s.sources - (if s.searchTimeout.Some? then {s.searchTimeout.value} else {})
            && t == s.(sources := t.sources, searchTimeout := None)
  {
    if s.searchTimeout.Some? {
      var h := s.searchTimeout.value;
      var t := s.(sources := s.sources - {h}, searchTimeout := None);
      assert CancelSearch(s) == t;
      forall g: SourceId | IsSearch(t, g)
        ensures false
      {
        assert IsSearch(s, g);
      }
      assert SearchTimerTracked(t);
      assert RowTimersTracked(t) by {
        assert forall g: SourceId :: IsRowTimer(t, g) ==> IsRowTimer(s, g);
      }
      assert SpinnerTracked(t) by {
        assert forall g: SourceId :: IsSpinner(t, g) ==> IsSpinner(s, g);
      }
      assert ProgressTimerTracked(t) by {
        assert forall g: SourceId :: IsProgress(t, g) ==> IsProgress(s, g);
      }
      assert OverlaysTracked(t) by {
        forall k, o | 0 <= k < |t.rows| && o in t.rows[k].overlays
          ensures IsOverlay(t, o)
        {
          assert IsOverlay(s, o);
        }
      }
    }
  }

  /** `_destroySpinner` keeps the invariant and leaves no spinner loop. */
  lemma DestroySpinnerInv(s: IndicatorState)
    requires Inv(s)
    ensures var t := DestroySpinner(s);
            && Inv(t) && t.spinLoopId.None? && !t.spinnerShown
            && (forall h: SourceId :: !IsSpinner(t, h))
            && t.sources == s.sources - (if s.spinLoopId.Some? then {s.spinLoopId.value} else {})
            && t == s.(sources := t.sources, spinLoopId := None, spinnerShown := false)
  {
    var t := DestroySpinner(s);
    forall h: SourceId | IsSpinner(t, h)
      ensures false
    {
      assert IsSpinner(s, h);
    }
    assert forall h: SourceId :: IsProgress(t, h) ==> IsProgress(s, h);
    assert forall h: SourceId :: IsSearch(t, h) ==> IsSearch(s, h);
    assert forall h: SourceId :: IsRowTimer(t, h) ==> IsRowTimer(s, h);
    forall k, o | 0 <= k < |t.rows| && o in t.rows[k].overlays
      ensures IsOverlay(t, o)
    {
      assert IsOverlay(s, o);
    }
  }

  // ---------------------------------------------------------------------
  // Search

  /** What the handler does for an empty query, apart from the query itself. */
  function ClearQuery(s: IndicatorState): IndicatorState {
    AddSource(ClearAllRows(DestroySpinner(CancelSearch(s))), ResizeResults(0))
  }

  /** Proof step: an empty trimmed query takes the clearing branch (TextChangedAllSpace states its effect). */
  lemma TextChangedEmpty(s: IndicatorState, text: string)
    requires Text.Trim(text) == ""
    ensures TextChanged(s, text) == ClearQuery(s)
  {
  }

  /** Proof step: a non-empty trimmed query takes the scheduling branch (TextChangedQuery states its effect). */
  lemma TextChangedQueryIsSchedule(s: IndicatorState, text: string)
    requires Text.Trim(text) != ""
    ensures TextChanged(s, text) == ScheduleSearch(CancelSearch(s), Text.Trim(text))
  {
  }

  /** Clearing the query cancels the debounce, the spinner, the rows and their timers. */
  lemma ClearQueryCancels(s: IndicatorState)
    requires Inv(s)
    ensures var t := ClearQuery(s);
            && Inv(t)
            && t.searchTimeout.None? && (forall h: SourceId :: !IsSearch(t, h))
            && t.rows == [] && t.rowTimeouts == [] && (forall h: SourceId :: !IsRowTimer(t, h))
            && t.spinLoopId.None? && !t.spinnerShown
            && t.fetches == s.fetches && t.renderedResults == s.renderedResults
            && t.sources[t.nextSource - 1] == ResizeResults(0)
            && OnlyFreshAdded(s, t)
  {
    var s1 := CancelSearch(s);
    CancelSearchInv(s);
    var s2 := DestroySpinner(s1);
    DestroySpinnerInv(s1);
    var s3 := ClearAllRows(s2);
    ClearAllRowsCancels(s2);
    AddResizeInv(s3, 0);
    assert s3.nextSource == s.nextSource;
    assert forall h :: h in s3.sources ==> h in s.sources;
  }

  /**
   * A query made only of white space (the empty query included) cancels
   * the pending search, hides the spinner, destroys the rows with their
   * entrance timers and shrinks the results box, and does nothing else.
   */
  lemma TextChangedAllSpace(s: IndicatorState, text: string)
    requires Inv(s)
    requires forall k :: 0 <= k < |text| ==> Text.IsJsSpace(text[k])
    ensures var t := TextChanged(s, text);
            && Inv(t)
            && t.searchTimeout.None? && (forall h: SourceId :: !IsSearch(t, h))
            && t.rows == [] && t.rowTimeouts == [] && (forall h: SourceId :: !IsRowTimer(t, h))
            && t.spinLoopId.None? && !t.spinnerShown
            && t.fetches == s.fetches && t.renderedResults == s.renderedResults
            && t.sources[t.nextSource - 1] == ResizeResults(0)
            && OnlyFreshAdded(s, t)
            && t == s.(sources := t.sources, nextSource := t.nextSource, searchTimeout := None,
                       spinLoopId := None, spinnerShown := false, rows := [], rowTimeouts := [])
  {
    Text.TrimEmptyIffAllSpace(text);
    TextChangedEmpty(s, text);
    ClearQueryCancels(s);
  }

  /** `_createSpinner` keeps the invariant; the old render's timers stay pending. */
  lemma CreateSpinnerInv(s: IndicatorState)
    requires Inv(s)
    ensures var t := CreateSpinner(s);
            && Inv(t) && t.spinnerShown && (!s.spinnerShown ==> t.rows == [])
            && t.searchTimeout == s.searchTimeout && t.fetches == s.fetches
            && t.rowTimeouts == s.rowTimeouts
            && (forall h :: h in s.sources ==> h in t.sources && t.sources[h] == s.sources[h])
            && (forall h: SourceId :: IsSearch(t, h) ==> IsSearch(s, h))
            && OnlyFreshAdded(s, t)
  {
    if !s.spinnerShown {
      var t := CreateSpinner(s);
      assert forall h: SourceId :: IsSearch(t, h) ==> IsSearch(s, h);
      assert forall h: SourceId :: IsProgress(t, h) ==> IsProgress(s, h);
      assert forall h: SourceId :: IsRowTimer(t, h) ==> IsRowTimer(s, h);
      forall h: SourceId | IsSpinner(t, h)
        ensures h == s.nextSource
      {
        if h != s.nextSource {
          assert IsSpinner(s, h);
        }
      }
    }
  }

  /** Scheduling the debounce when none is pending keeps the invariant. */
  lemma AddSearchInv(s: IndicatorState, q: string)
    requires Inv(s) && s.searchTimeout.None?
    ensures var t := AddSource(s, SearchDebounce(q)).(searchTimeout := Some(s.nextSource));
            && Inv(t)
            && (forall h :: h in s.sources ==> h in t.sources && t.sources[h] == s.sources[h])
  {
    var t := AddSource(s, SearchDebounce(q)).(searchTimeout := Some(s.nextSource));
    assert forall h: SourceId :: IsProgress(t, h) ==> IsProgress(s, h);
    assert forall h: SourceId :: IsRowTimer(t, h) ==> IsRowTimer(s, h);
    assert forall h: SourceId :: IsSpinner(t, h) ==> IsSpinner(s, h);
    assert forall h: SourceId :: IsSearch(t, h) ==> h == s.nextSource || IsSearch(s, h);
    forall k, o | 0 <= k < |t.rows| && o in t.rows[k].overlays
      ensures IsOverlay(t, o)
    {
      assert IsOverlay(s, o);
    }
  }

  lemma ScheduleSearchFacts(s: IndicatorState, q: string)
    requires Inv(s) && s.searchTimeout.None?
    ensures var t := ScheduleSearch(s, q);
            && Inv(t)
            && t.searchTimeout == Some(t.nextSource - 1)
            && t.sources[t.nextSource - 1] == SearchDebounce(q)
            && t.fetches == s.fetches
            && t.spinnerShown && (!s.spinnerShown ==> t.rows == []) && t.scrollHeight == Some(LOADING_HEIGHT)
            && (forall h :: h in s.sources ==> h in t.sources && t.sources[h] == s.sources[h])
            && OnlyFreshAdded(s, t)
  {
    var s0 := CreateSpinner(s);
    var s1 := s0.(scrollHeight := Some(LOADING_HEIGHT));
    CreateSpinnerInv(s);
    forall k, o | 0 <= k < |s1.rows| && o in s1.rows[k].overlays
      ensures IsOverlay(s1, o)
    {
      assert IsOverlay(s0, o);
    }
    AddSearchInv(s1, q);
  }

  /**
   * A non-empty query leaves exactly one search timer pending, carrying the
   * trimmed query; the earlier one is cancelled and no search is sent yet.
   * The rows of the previous render are dropped for the spinner, but their
   * timers stay pending.
   */
  lemma TextChangedQuery(s: IndicatorState, text: string)
    requires Inv(s) && Text.Trim(text) != ""
    ensures var t := TextChanged(s, text);
            && Inv(t)
            && t.searchTimeout.Some?
            && t.sources[t.searchTimeout.value] == SearchDebounce(Text.Trim(text))
            && (forall h: SourceId :: IsSearch(t, h) <==> t.searchTimeout == Some(h))
            && (s.searchTimeout.Some? ==> s.searchTimeout.value !in t.sources)
            && t.fetches == s.fetches
            && t.spinnerShown && (!s.spinnerShown ==> t.rows == []) && t.scrollHeight == Some(LOADING_HEIGHT)
            && (forall h: SourceId :: IsRowTimer(s, h) ==> IsRowTimer(t, h))
            && OnlyFreshAdded(s, t)
  {
    TextChangedQueryIsSchedule(s, text);
    CancelSearchInv(s);
    ScheduleSearchFacts(CancelSearch(s), Text.Trim(text));
  }

  lemma TextChangedInv(s: IndicatorState, text: string)
    requires Inv(s)
    ensures Inv(TextChanged(s, text)) && TextChanged(s, text).fetches == s.fetches
  {
    if Text.Trim(text) == "" {
      TextChangedEmpty(s, text);
      ClearQueryCancels(s);
    } else {
      TextChangedQuery(s, text);
    }
  }

  /** The text-changed handler applied to each text in turn. */
  function TypeAll(s: IndicatorState, texts: seq<string>): IndicatorState {
    if texts == [] then s else TextChanged(TypeAll(s, texts[..|texts| - 1]), texts[|texts| - 1])
  }

  lemma {:induction false} TypeAllInv(s: IndicatorState, texts: seq<string>)
    requires Inv(s)
    ensures Inv(TypeAll(s, texts)) && TypeAll(s, texts).fetches == s.fetches
  {
    if texts != [] {
      TypeAllInv(s, texts[..|texts| - 1]);
      TextChangedInv(TypeAll(s, texts[..|texts| - 1]), texts[|texts| - 1]);
    }
  }

  /**
   * However many keystrokes arrive before the quiet interval ends, exactly
   * one search timer is pending afterwards, for the final query only, and
   * no search has been sent.
   */
  lemma DebounceLastQueryWins(s: IndicatorState, texts: seq<string>)
    requires Inv(s) && |texts| > 0 && Text.Trim(texts[|texts| - 1]) != ""
    ensures var t := TypeAll(s, texts);
            && t.searchTimeout.Some?
            && t.sources[t.searchTimeout.value] == SearchDebounce(Text.Trim(texts[|texts| - 1]))
            && (forall h: SourceId :: IsSearch(t, h) <==> t.searchTimeout == Some(h))
            && t.fetches == s.fetches
  {
    TypeAllInv(s, texts[..|texts| - 1]);
    TextChangedQuery(TypeAll(s, texts[..|texts| - 1]), texts[|texts| - 1]);
  }

  /** When the debounce fires, the search for its query is sent and `_searchTimeout` is reset. */
  lemma SearchFiredSends(s: IndicatorState, h: SourceId)
    requires Inv(s) && IsSearch(s, h)
    ensures var t := SearchFired(s, h);
            && Inv(t)
            && t.searchTimeout.None? && (forall g: SourceId :: !IsSearch(t, g))
            && t.fetches == s.fetches + [s.sources[h].query]
            && OnlyFreshAdded(s, t)
  {
    var t := SearchFired(s, h);
    forall g: SourceId | IsSearch(t, g)
      ensures false
    {
      assert IsSearch(s, g);
    }
    assert forall g: SourceId :: IsProgress(t, g) ==> IsProgress(s, g);
    assert forall g: SourceId :: IsSpinner(t, g) ==> IsSpinner(s, g);
    assert forall g: SourceId :: IsRowTimer(t, g) ==> IsRowTimer(s, g);
    forall k, o | 0 <= k < |t.rows| && o in t.rows[k].overlays
      ensures IsOverlay(t, o)
    {
      assert IsOverlay(s, o);
    }
  }

  // ---------------------------------------------------------------------
  // Fields the invariant does not read

  /** Changing only labels, the playing id, the index or the results height keeps the invariant. */
  lemma InvFrame(s: IndicatorState, t: IndicatorState)
    requires Inv(s)
    requires t.sources == s.sources && t.nextSource == s.nextSource && t.players == s.players
    requires t.currentPlayer == s.currentPlayer && t.isPlaying == s.isPlaying && t.pauseIcon == s.pauseIcon
    requires t.progressId == s.progressId && t.searchTimeout == s.searchTimeout
    requires t.spinLoopId == s.spinLoopId && t.spinnerShown == s.spinnerShown
    requires t.currentOverlay == s.currentOverlay && t.currentIndex >= -1
    requires t.rowTimeouts == s.rowTimeouts && t.rows == s.rows
    requires t.rows == [] || |t.renderedResults| == |s.renderedResults|
    ensures Inv(t)
  {
    assert forall h: SourceId :: IsSearch(t, h) ==> IsSearch(s, h);
    assert forall h: SourceId :: IsProgress(t, h) ==> IsProgress(s, h);
    assert forall h: SourceId :: IsSpinner(t, h) ==> IsSpinner(s, h);
    assert forall h: SourceId :: IsRowTimer(t, h) ==> IsRowTimer(s, h);
    forall k, o | 0 <= k < |t.rows| && o in t.rows[k].overlays
      ensures IsOverlay(t, o)
    {
      assert IsOverlay(s, o);
    }
  }

  // ---------------------------------------------------------------------
  // Rendering results

  /** One row per song at its own index, showing that song, highlighted exactly when it is the playing song. */
  ghost predicate RenderedRows(results: seq<Song>, playing: Option<SongId>, acc: RenderAcc) {
    && |acc.rows| == |results|
    && forall k :: 0 <= k < |results| ==>
         && acc.rows[k].index == k && acc.rows[k].song == results[k]
         && acc.rows[k].highlighted == (playing == Some(results[k].id))
  }

  /** Row `k` is the last of `results` that holds the playing song. */
  ghost predicate LastPlaying(results: seq<Song>, playing: Option<SongId>, k: int) {
    && 0 <= k < |results| && playing == Some(results[k].id)
    && forall j :: k < j < |results| ==> playing != Some(results[j].id)
  }

  /**
   * The playing song's rows get an overlay back, and no other row has one;
   * the overlay of the last such row is the current overlay.
   */
  ghost predicate RenderedRestore(results: seq<Song>, playing: Option<SongId>, acc: RenderAcc) {
    && |acc.rows| == |results|
    && (forall k :: 0 <= k < |results| ==> (acc.rows[k].overlays != {} <==> playing == Some(results[k].id)))
    && (forall k :: LastPlaying(results, playing, k) ==>
          acc.overlay.Some? && acc.overlay.value in acc.rows[k].overlays)
  }

  /** One pending entrance timer per row, made during the loop, carrying the row's small cover. */
  ghost predicate RenderedTimers(results: seq<Song>, start: RenderAcc, acc: RenderAcc) {
    && |acc.rowTimeouts| == |results|
    && forall k :: 0 <= k < |results| ==>
         && start.next <= acc.rowTimeouts[k] < acc.next && acc.rowTimeouts[k] in acc.sources
         && acc.sources[acc.rowTimeouts[k]] == RowEntrance(k, SmallArtwork(results[k]))
  }

  /** Overlay wrappers only on highlighted rows, each with a fresh pending animation. */
  ghost predicate RenderedOverlays(start: RenderAcc, acc: RenderAcc) {
    forall k :: 0 <= k < |acc.rows| ==> forall o :: o in acc.rows[k].overlays ==>
      && acc.rows[k].highlighted
      && start.next <= o < acc.next && o in acc.sources && acc.sources[o] == OverlayFrame(0)
  }

  /** The sources that were there are untouched; the new ones are overlays or recorded timers. */
  ghost predicate RenderedSources(start: RenderAcc, acc: RenderAcc) {
    && start.next <= acc.next
    && (forall h :: h in acc.sources && h < start.next ==> h in start.sources && acc.sources[h] == start.sources[h])
    && (forall h :: h in start.sources ==> h in acc.sources)
    && (forall h :: h in acc.sources && start.next <= h ==>
          h < acc.next && (acc.sources[h] == OverlayFrame(0) || h in acc.rowTimeouts))
  }

  /** The current overlay is the old one unless a playing song was rendered, then a fresh one. */
  ghost predicate RenderedCurrent(results: seq<Song>, playing: Option<SongId>, start: RenderAcc, acc: RenderAcc) {
    && (|| acc.overlay == start.overlay
        || (acc.overlay.Some? && start.next <= acc.overlay.value < acc.next
            && acc.overlay.value in acc.sources && acc.sources[acc.overlay.value] == OverlayFrame(0)))
    && ((exists k :: 0 <= k < |results| && playing == Some(results[k].id)) ==> acc.overlay != start.overlay)
  }

  /** What the row-building loop has made from `results`, started from `start` (no rows yet). */
  ghost predicate RenderedFrom(results: seq<Song>, playing: Option<SongId>, start: RenderAcc, acc: RenderAcc) {
    && RenderedRows(results, playing, acc)
    && RenderedTimers(results, start, acc)
    && RenderedOverlays(start, acc)
    && RenderedSources(start, acc)
    && RenderedCurrent(results, playing, start, acc)
    && RenderedRestore(results, playing, acc)
  }

  /** Proof step: one turn of the render loop unfolded — the ids it takes and what it adds. */
  lemma RenderRowIds(acc: RenderAcc, r: Song, i: nat, playing: Option<SongId>)
    ensures var a := RenderRow(acc, r, i, playing);
            var e := if playing == Some(r.id) then acc.next + 1 else acc.next;
            && a.next == e + 1
            && a.rowTimeouts == acc.rowTimeouts + [e]
            && a.rows == acc.rows + [Row(i, r, playing == Some(r.id), if playing == Some(r.id) then {acc.next} else {})]
            && a.sources == (if playing == Some(r.id) then acc.sources[acc.next := OverlayFrame(0)] else acc.sources)[e := RowEntrance(i, SmallArtwork(r))]
            && a.overlay == (if playing == Some(r.id) then Some(acc.next) else acc.overlay)
  {
  }

  /** Proof step: one render-loop turn keeps RenderedRows. */
  lemma RenderRowsStep(results: seq<Song>, playing: Option<SongId>, acc: RenderAcc, r: Song)
    requires RenderedRows(results, playing, acc)
    ensures RenderedRows(results + [r], playing, RenderRow(acc, r, |results|, playing))
  {
    RenderRowIds(acc, r, |results|, playing);
    var rs := results + [r];
    assert forall k :: 0 <= k < |results| ==> rs[k] == results[k];
  }

  /** Proof step: one render-loop turn keeps RenderedTimers. */
  lemma RenderTimersStep(results: seq<Song>, playing: Option<SongId>, start: RenderAcc, acc: RenderAcc, r: Song)
    requires RenderedTimers(results, start, acc) && start.next <= acc.next
    requires forall h :: h in acc.sources ==> h < acc.next
    ensures RenderedTimers(results + [r], start, RenderRow(acc, r, |results|, playing))
  {
    RenderRowIds(acc, r, |results|, playing);
    var rs := results + [r];
    assert forall k :: 0 <= k < |results| ==> rs[k] == results[k];
  }

  /** Proof step: one render-loop turn keeps RenderedOverlays. */
  lemma RenderOverlaysStep(playing: Option<SongId>, start: RenderAcc, acc: RenderAcc, r: Song, i: nat)
    requires RenderedOverlays(start, acc) && start.next <= acc.next
    requires forall h :: h in acc.sources ==> h < acc.next
    ensures RenderedOverlays(start, RenderRow(acc, r, i, playing))
  {
    RenderRowIds(acc, r, i, playing);
    var a := RenderRow(acc, r, i, playing);
    forall k, o | 0 <= k < |a.rows| && o in a.rows[k].overlays
      ensures a.rows[k].highlighted && start.next <= o < a.next && o in a.sources && a.sources[o] == OverlayFrame(0)
    {
      if k < |acc.rows| {
        assert a.rows[k] == acc.rows[k];
        assert o in acc.rows[k].overlays;
        assert o < acc.next;
      } else {
        assert k == |acc.rows| && playing == Some(r.id) && o == acc.next;
      }
    }
  }

  /** Proof step: one render-loop turn keeps RenderedSources. */
  lemma RenderSourcesStep(start: RenderAcc, acc: RenderAcc, r: Song, i: nat, playing: Option<SongId>)
    requires RenderedSources(start, acc)
    requires forall h :: h in acc.sources ==> h < acc.next
    ensures RenderedSources(start, RenderRow(acc, r, i, playing))
  {
    RenderRowIds(acc, r, i, playing);
    var a := RenderRow(acc, r, i, playing);
    forall h | h in a.sources && start.next <= h
      ensures h < a.next && (a.sources[h] == OverlayFrame(0) || h in a.rowTimeouts)
    {
      if h in acc.sources && h < acc.next && acc.sources[h] != OverlayFrame(0) {
        var j :| 0 <= j < |acc.rowTimeouts| && acc.rowTimeouts[j] == h;
        assert a.rowTimeouts[j] == h;
      }
    }
  }

  /** Proof step: one render-loop turn keeps RenderedCurrent. */
  lemma RenderCurrentStep(results: seq<Song>, playing: Option<SongId>, start: RenderAcc, acc: RenderAcc, r: Song)
    requires RenderedCurrent(results, playing, start, acc) && start.next <= acc.next
    requires start.overlay.Some? ==> start.overlay.value < start.next
    requires forall h :: h in acc.sources ==> h < acc.next
    ensures RenderedCurrent(results + [r], playing, start, RenderRow(acc, r, |results|, playing))
  {
    RenderRowIds(acc, r, |results|, playing);
    var rs := results + [r];
    if playing != Some(r.id) {
      if exists k :: 0 <= k < |rs| && playing == Some(rs[k].id) {
        var k :| 0 <= k < |rs| && playing == Some(rs[k].id);
        assert k < |results| && rs[k] == results[k];
      }
    }
  }

  /** Proof step: one render-loop turn keeps RenderedRestore. */
  lemma RenderRestoreStep(results: seq<Song>, playing: Option<SongId>, acc: RenderAcc, r: Song)
    requires RenderedRestore(results, playing, acc)
    ensures RenderedRestore(results + [r], playing, RenderRow(acc, r, |results|, playing))
  {
    RenderRowIds(acc, r, |results|, playing);
    var rs := results + [r];
    var a := RenderRow(acc, r, |results|, playing);
    assert forall k :: 0 <= k < |results| ==> rs[k] == results[k] && a.rows[k] == acc.rows[k];
    forall k | LastPlaying(rs, playing, k)
      ensures a.overlay.Some? && a.overlay.value in a.rows[k].overlays
    {
      if k < |results| {
        assert rs[|results|] == r;
        assert LastPlaying(results, playing, k);
      }
    }
  }

  /** Every source of the accumulator lies below its next id. */
  ghost predicate AccFresh(acc: RenderAcc) {
    forall h :: h in acc.sources ==> h < acc.next
  }

  /** Proof step: one render-loop turn keeps RenderedFrom, the induction step of RenderRowsShape. */
  lemma RenderRowStep(results: seq<Song>, playing: Option<SongId>, start: RenderAcc, acc: RenderAcc, r: Song)
    requires start.overlay.Some? ==> start.overlay.value < start.next
    requires RenderedFrom(results, playing, start, acc) && AccFresh(acc)
    ensures RenderedFrom(results + [r], playing, start, RenderRow(acc, r, |results|, playing))
    ensures AccFresh(RenderRow(acc, r, |results|, playing))
  {
    RenderRowIds(acc, r, |results|, playing);
    RenderRowsStep(results, playing, acc, r);
    RenderTimersStep(results, playing, start, acc, r);
    RenderOverlaysStep(playing, start, acc, r, |results|);
    RenderSourcesStep(start, acc, r, |results|, playing);
    RenderCurrentStep(results, playing, start, acc, r);
    RenderRestoreStep(results, playing, acc, r);
  }

  /** The loop of `_renderResults` makes exactly the rows and timers `RenderedFrom` describes. */
  lemma {:induction false} RenderRowsShape(results: seq<Song>, playing: Option<SongId>, start: RenderAcc)
    requires start.rows == [] && start.rowTimeouts == [] && AccFresh(start)
    requires start.overlay.Some? ==> start.overlay.value < start.next
    ensures RenderedFrom(results, playing, start, RenderRows(results, playing, start))
    ensures AccFresh(RenderRows(results, playing, start))
  {
    if results == [] {
    } else {
      var n := |results| - 1;
      var pre := results[..n];
      var acc := RenderRows(pre, playing, start);
      assert pre + [results[n]] == results;
      assert RenderRows(results, playing, start) == RenderRow(acc, results[n], |pre|, playing);
      RenderRowsShape(pre, playing, start);
      RenderRowStep(pre, playing, start, acc, results[n]);
    }
  }

  /** The state the row-building loop leaves, before the resize is scheduled. */
  function AfterRows(s1: IndicatorState): IndicatorState {
    var acc := RenderRows(s1.renderedResults, s1.currentPlayingId,
                          RenderAcc([], [], s1.sources, s1.nextSource, s1.currentOverlay));
    s1.(rows := acc.rows, rowTimeouts := acc.rowTimeouts, sources := acc.sources,
        nextSource := acc.next, currentOverlay := acc.overlay)
  }

  /** Proof step: `_renderResults` unfolded into the cleared state, the rows loop and the resize. */
  lemma RenderResultsSteps(s: IndicatorState, results: seq<Song>)
    ensures RenderResults(s, results)
         == AddSource(AfterRows(ClearAllRows(s).(renderedResults := results)), ResizeResults(ResultsHeight(|results|)))
  {
  }

  /** The sources the loop adds are entrance timers and overlay animations only. */
  lemma RenderedNewKinds(results: seq<Song>, start: RenderAcc, acc: RenderAcc)
    requires RenderedSources(start, acc) && RenderedTimers(results, start, acc)
    ensures forall h :: h in acc.sources && start.next <= h ==>
              acc.sources[h].OverlayFrame? || acc.sources[h].RowEntrance?
  {
    forall h | h in acc.sources && start.next <= h && !acc.sources[h].OverlayFrame?
      ensures acc.sources[h].RowEntrance?
    {
      var j :| 0 <= j < |acc.rowTimeouts| && acc.rowTimeouts[j] == h;
    }
  }

  /**
   * The part of the invariant about sources survives a loop that only
   * adds entrance timers and overlay animations above `s.nextSource`.
   */
  lemma AddedRowSourcesInv(s: IndicatorState, t: IndicatorState)
    requires Inv(s) && s.rows == [] && s.rowTimeouts == []
    requires forall h: SourceId :: !IsRowTimer(s, h)
    requires s.nextSource <= t.nextSource
    requires forall h :: h in t.sources ==> h < t.nextSource
    requires forall h :: h in s.sources ==> h in t.sources && t.sources[h] == s.sources[h]
    requires forall h :: h in t.sources && h < s.nextSource ==> h in s.sources
    requires forall h :: h in t.sources && s.nextSource <= h ==>
               t.sources[h].OverlayFrame? || t.sources[h].RowEntrance?
    requires t.searchTimeout == s.searchTimeout && t.progressId == s.progressId && t.spinLoopId == s.spinLoopId
    requires t.spinnerShown == s.spinnerShown && t.players == s.players && t.currentPlayer == s.currentPlayer
    requires t.isPlaying == s.isPlaying && t.pauseIcon == s.pauseIcon && t.currentIndex == s.currentIndex
    ensures 1 <= t.nextSource && (forall h :: h in t.sources ==> 1 <= h < t.nextSource)
    ensures t.progressId.Some? ==> t.progressId.value < t.nextSource
    ensures SearchTimerTracked(t) && ProgressTimerTracked(t) && SpinnerTracked(t)
    ensures forall h: SourceId :: IsRowTimer(t, h) ==> s.nextSource <= h
    ensures OnePlayerLive(t) && t.pauseIcon == t.isPlaying && t.currentIndex >= -1
  {
    assert forall h: SourceId :: IsSearch(t, h) ==> IsSearch(s, h);
    assert forall h: SourceId :: IsProgress(t, h) ==> IsProgress(s, h);
    assert forall h: SourceId :: IsSpinner(t, h) ==> IsSpinner(s, h);
    forall h: SourceId | IsRowTimer(t, h)
      ensures s.nextSource <= h
    {
      if h < s.nextSource {
        assert IsRowTimer(s, h);
      }
    }
  }

  /** The loop keeps the invariant when it starts from no rows and no row timers. */
  lemma AfterRowsInv(s1: IndicatorState)
    requires Inv(s1) && s1.rows == [] && s1.rowTimeouts == []
    requires forall h: SourceId :: !IsRowTimer(s1, h)
    ensures Inv(AfterRows(s1))
    ensures RenderedFrom(s1.renderedResults, s1.currentPlayingId,
                         RenderAcc([], [], s1.sources, s1.nextSource, s1.currentOverlay),
                         RenderRows(s1.renderedResults, s1.currentPlayingId,
                                    RenderAcc([], [], s1.sources, s1.nextSource, s1.currentOverlay)))
  {
    var results := s1.renderedResults;
    var start := RenderAcc([], [], s1.sources, s1.nextSource, s1.currentOverlay);
    var acc := RenderRows(results, s1.currentPlayingId, start);
    RenderRowsShape(results, s1.currentPlayingId, start);
    RenderedNewKinds(results, start, acc);
    var t := AfterRows(s1);
    assert t.sources == acc.sources && t.rows == acc.rows && t.rowTimeouts == acc.rowTimeouts;
    AddedRowSourcesInv(s1, t);
    AfterRowsTimers(s1, t, results, start, acc);
    AfterRowsOverlays(s1, t, start, acc);
    assert SourcesFresh(t);
    assert RowsMatchResults(t);
  }

  /** The loop's entrance timers are recorded, fresh and the only row timers. */
  lemma AfterRowsTimers(s1: IndicatorState, t: IndicatorState, results: seq<Song>, start: RenderAcc, acc: RenderAcc)
    requires RenderedTimers(results, start, acc) && RenderedSources(start, acc)
    requires start.sources == s1.sources && forall h: SourceId :: !IsRowTimer(s1, h)
    requires t.sources == acc.sources && t.rowTimeouts == acc.rowTimeouts && t.nextSource == acc.next
    ensures RowTimersTracked(t)
    ensures forall k :: 0 <= k < |t.rowTimeouts| ==> t.rowTimeouts[k] < t.nextSource
  {
    forall h: SourceId | IsRowTimer(t, h)
      ensures h in t.rowTimeouts
    {
      assert h < start.next ==> IsRowTimer(s1, h);
    }
    assert forall k :: 0 <= k < |t.rowTimeouts| ==> IsRowTimer(t, t.rowTimeouts[k]);
  }

  /** The old overlays whose rows are gone stay animating, and the new ones animate. */
  lemma AfterRowsOverlays(s1: IndicatorState, t: IndicatorState, start: RenderAcc, acc: RenderAcc)
    requires OverlaysTracked(s1) && start.sources == s1.sources && start.overlay == s1.currentOverlay
    requires forall h :: h in start.sources ==> h < start.next
    requires RenderedOverlays(start, acc) && RenderedSources(start, acc)
    requires acc.overlay == start.overlay
             || (acc.overlay.Some? && acc.overlay.value in acc.sources && acc.sources[acc.overlay.value] == OverlayFrame(0))
    requires t.sources == acc.sources && t.rows == acc.rows && t.currentOverlay == acc.overlay
    ensures OverlaysTracked(t)
  {
    if t.currentOverlay.Some? && t.currentOverlay == s1.currentOverlay {
      assert IsOverlay(s1, t.currentOverlay.value);
    }
  }

  /** `_renderResults` keeps the invariant. */
  lemma RenderResultsInv(s: IndicatorState, results: seq<Song>)
    requires Inv(s)
    ensures Inv(RenderResults(s, results))
  {
    RenderResultsSteps(s, results);
    ClearAllRowsCancels(s);
    var c := ClearAllRows(s);
    var s1 := c.(renderedResults := results);
    InvFrame(c, s1);
    assert forall h: SourceId :: IsRowTimer(s1, h) ==> IsRowTimer(c, h);
    AfterRowsInv(s1);
    AddResizeInv(AfterRows(s1), ResultsHeight(|results|));
  }

  /** `_renderResults` as the rows loop over the cleared state, then the resize. */
  lemma RenderResultsParts(s: IndicatorState, results: seq<Song>)
    requires Inv(s)
    ensures var s1 := ClearAllRows(s).(renderedResults := results);
            var start := RenderAcc([], [], s1.sources, s1.nextSource, s1.currentOverlay);
            var acc := RenderRows(results, s1.currentPlayingId, start);
            var t := RenderResults(s, results);
            && Inv(t)
            && RenderedFrom(results, s.currentPlayingId, start, acc)
            && s1.sources == s.sources - Elems(s.rowTimeouts) && s1.nextSource == s.nextSource
            && (forall h :: h in s1.sources ==> h < s1.nextSource)
            && t.renderedResults == results && t.rows == acc.rows && t.rowTimeouts == acc.rowTimeouts
            && t.sources == acc.sources[acc.next := ResizeResults(ResultsHeight(|results|))]
            && t.nextSource == acc.next + 1 && t.currentOverlay == acc.overlay
  {
    RenderResultsInv(s, results);
    RenderResultsSteps(s, results);
    ClearAllRowsCancels(s);
    var c := ClearAllRows(s);
    var s1 := c.(renderedResults := results);
    var start := RenderAcc([], [], s1.sources, s1.nextSource, s1.currentOverlay);
    RenderRowsShape(results, s1.currentPlayingId, start);
  }

  /**
   * `_renderResults`: the results are remembered and there is one row per
   * result at its own index, showing the song's name, artist and duration,
   * with an entrance timer carrying its small cover; exactly the playing
   * song's row is highlighted (its overlay: RenderResultsRestoresOverlay);
   * the results view is eased to `min(60 * n, 250)`.
   */
  lemma RenderResultsShows(s: IndicatorState, results: seq<Song>)
    requires Inv(s)
    ensures var t := RenderResults(s, results);
            && Inv(t)
            && t.renderedResults == results
            && |t.rows| == |results| && |t.rowTimeouts| == |results|
            && (forall k :: 0 <= k < |results| ==>
                  && t.rows[k].index == k && t.rows[k].song == results[k]
                  && t.rows[k].highlighted == (s.currentPlayingId == Some(results[k].id))
                  && RowLabels(t.rows[k]) == [results[k].name, ArtistText(results[k]), DurationText(results[k].duration)])
            && (forall k :: 0 <= k < |results| ==>
                  t.rowTimeouts[k] in t.sources && t.sources[t.rowTimeouts[k]] == RowEntrance(k, SmallArtwork(results[k])))
            && t.sources[t.nextSource - 1] == ResizeResults(ResultsHeight(|results|))
  {
    RenderResultsParts(s, results);
  }

  /**
   * "If this song was already playing, restore overlay": after
   * `_renderResults` a row has an overlay wrapper exactly when it holds the
   * playing song, each such wrapper's animation is pending from frame 0,
   * and the wrapper of the last such row is the current overlay.
   */
  lemma RenderResultsRestoresOverlay(s: IndicatorState, results: seq<Song>)
    requires Inv(s)
    ensures var t := RenderResults(s, results);
            && |t.rows| == |results|
            && (forall k :: 0 <= k < |results| ==>
                  (t.rows[k].overlays != {} <==> s.currentPlayingId == Some(results[k].id)))
            && (forall k, o :: 0 <= k < |results| && o in t.rows[k].overlays ==>
                  o in t.sources && t.sources[o] == OverlayFrame(0))
            && (forall k :: LastPlaying(results, s.currentPlayingId, k) ==>
                  t.currentOverlay.Some? && t.currentOverlay.value in t.rows[k].overlays)
  {
    RenderResultsAcc(s, results);
    var s1 := ClearAllRows(s).(renderedResults := results);
    var start := RenderAcc([], [], s1.sources, s1.nextSource, s1.currentOverlay);
    RestoreTransfer(results, s.currentPlayingId, start, RenderRows(results, s1.currentPlayingId, start),
                    RenderResults(s, results), ResizeResults(ResultsHeight(|results|)));
  }

  /** Proof step: the loop's overlay facts, and the fields `_renderResults` takes from the loop. */
  lemma RenderResultsAcc(s: IndicatorState, results: seq<Song>)
    requires Inv(s)
    ensures var s1 := ClearAllRows(s).(renderedResults := results);
            var start := RenderAcc([], [], s1.sources, s1.nextSource, s1.currentOverlay);
            var acc := RenderRows(results, s1.currentPlayingId, start);
            var t := RenderResults(s, results);
            && s1.currentPlayingId == s.currentPlayingId
            && RenderedRestore(results, s.currentPlayingId, acc) && RenderedOverlays(start, acc)
            && t.rows == acc.rows && t.currentOverlay == acc.overlay
            && t.sources == acc.sources[acc.next := ResizeResults(ResultsHeight(|results|))]
  {
    var s1 := ClearAllRows(s).(renderedResults := results);
    var start := RenderAcc([], [], s1.sources, s1.nextSource, s1.currentOverlay);
    assert AccFresh(start);
    RenderRowsShape(results, s1.currentPlayingId, start);
    RenderResultsSteps(s, results);
  }

  /** Proof step: the overlay facts about the loop's accumulator hold of the state built from it. */
  lemma RestoreTransfer(results: seq<Song>, playing: Option<SongId>, start: RenderAcc, acc: RenderAcc, t: IndicatorState, x: Source)
    requires RenderedRestore(results, playing, acc) && RenderedOverlays(start, acc)
    requires t.rows == acc.rows && t.currentOverlay == acc.overlay
    requires t.sources == acc.sources[acc.next := x]
    ensures && |t.rows| == |results|
            && (forall k :: 0 <= k < |results| ==>
                  (t.rows[k].overlays != {} <==> playing == Some(results[k].id)))
            && (forall k, o :: 0 <= k < |results| && o in t.rows[k].overlays ==>
                  o in t.sources && t.sources[o] == OverlayFrame(0))
            && (forall k :: LastPlaying(results, playing, k) ==>
                  t.currentOverlay.Some? && t.currentOverlay.value in t.rows[k].overlays)
  {
    forall k, o | 0 <= k < |results| && o in t.rows[k].overlays
      ensures o in t.sources && t.sources[o] == OverlayFrame(0)
    {
      assert o in acc.rows[k].overlays && o < acc.next;
    }
  }

  /**
   * `_renderResults` cancels the old rows' timers and leaves every other
   * pending source as it was; it only adds sources with fresh ids.
   */
  lemma RenderResultsCancels(s: IndicatorState, results: seq<Song>)
    requires Inv(s)
    ensures var t := RenderResults(s, results);
            && (forall k :: 0 <= k < |s.rowTimeouts| ==> s.rowTimeouts[k] !in t.sources)
            && (forall h :: h in s.sources && !IsRowTimer(s, h) ==> h in t.sources && t.sources[h] == s.sources[h])
            && OnlyFreshAdded(s, t)
  {
    RenderResultsParts(s, results);
    ClearAllRowsCancels(s);
  }

  /**
   * A search answers: the request is no longer outstanding and the spinner
   * is gone; results are rendered, a failure leaves the rows as they were.
   */
  lemma FetchSettledShows(s: IndicatorState, k: nat, outcome: Option<seq<Song>>)
    requires Inv(s) && k < |s.fetches|
    ensures var t := FetchSettled(s, k, outcome);
            && Inv(t)
            && t.fetches == s.fetches[..k] + s.fetches[k + 1..]
            && !t.spinnerShown && t.spinLoopId.None? && (forall h: SourceId :: !IsSpinner(t, h))
            && (outcome.Some? ==> t.renderedResults == outcome.value && |t.rows| == |outcome.value|)
            && (outcome.None? ==> t.renderedResults == s.renderedResults && t.rows == s.rows)
  {
    var s1 := s.(fetches := s.fetches[..k] + s.fetches[k + 1..]);
    InvFrame(s, s1);
    match outcome
    case Some(results) =>
      RenderResultsShows(s1, results);
      DestroySpinnerInv(RenderResults(s1, results));
    case None =>
      DestroySpinnerInv(s1);
  }

  /** Removing a pending source of a kind no field names keeps the invariant. */
  lemma RemoveUntrackedInv(s: IndicatorState, h: SourceId)
    requires Inv(s) && h in s.sources
    requires !s.sources[h].SearchDebounce? && !s.sources[h].SpinnerFrame? && !s.sources[h].OverlayFrame?
    ensures Inv(RemoveSource(s, h))
  {
    RemoveUnnamedInv(s, {h});
  }

  /** Scheduling a cover timer and recording it in `_rowTimeouts` keeps the invariant. */
  lemma AddArtworkInv(s: IndicatorState, row: nat, link: string)
    requires Inv(s)
    ensures Inv(AddSource(s, ArtworkLoad(row, link)).(rowTimeouts := s.rowTimeouts + [s.nextSource]))
  {
    var s1 := AddSource(s, ArtworkLoad(row, link)).(rowTimeouts := s.rowTimeouts + [s.nextSource]);
    assert forall g: SourceId :: IsSearch(s1, g) ==> IsSearch(s, g);
    assert forall g: SourceId :: IsProgress(s1, g) ==> IsProgress(s, g);
    assert forall g: SourceId :: IsSpinner(s1, g) ==> IsSpinner(s, g);
    assert s1.rowTimeouts[|s.rowTimeouts|] == s.nextSource;
    forall g: SourceId | IsRowTimer(s1, g) && g != s.nextSource
      ensures g in s1.rowTimeouts
    {
      assert IsRowTimer(s, g);
      var j :| 0 <= j < |s.rowTimeouts| && s.rowTimeouts[j] == g;
      assert s1.rowTimeouts[j] == g;
    }
    forall j | 0 <= j < |s1.rowTimeouts| && s1.rowTimeouts[j] in s1.sources
      ensures IsRowTimer(s1, s1.rowTimeouts[j])
    {
      if j < |s.rowTimeouts| {
        assert s1.rowTimeouts[j] == s.rowTimeouts[j] < s.nextSource;
      }
    }
    forall k, o | 0 <= k < |s1.rows| && o in s1.rows[k].overlays
      ensures IsOverlay(s1, o)
    {
      assert IsOverlay(s, o);
    }
  }

  /**
   * A row's entrance timer fires: it is gone, and when the song has a small
   * cover a cover timer for the same row is pending and recorded.
   */
  lemma RowEntranceFiredShows(s: IndicatorState, h: SourceId)
    requires Inv(s) && h in s.sources && s.sources[h].RowEntrance?
    ensures var t := RowEntranceFired(s, h);
            var src := s.sources[h];
            && Inv(t) && h !in t.sources
            && (Truthy(src.artwork) ==>
                  && t.rowTimeouts == s.rowTimeouts + [s.nextSource]
                  && t.sources[s.nextSource] == ArtworkLoad(src.row, src.artwork.value))
            && (!Truthy(src.artwork) ==> t == RemoveSource(s, h))
  {
    var src := s.sources[h];
    if Truthy(src.artwork) {
      var s1 := AddSource(s, ArtworkLoad(src.row, src.artwork.value)).(rowTimeouts := s.rowTimeouts + [s.nextSource]);
      AddArtworkInv(s, src.row, src.artwork.value);
      RemoveUntrackedInv(s1, h);
    } else {
      RemoveUntrackedInv(s, h);
    }
  }

  lemma ArtworkFiredInv(s: IndicatorState, h: SourceId)
    requires Inv(s) && h in s.sources && s.sources[h].ArtworkLoad?
    ensures Inv(ArtworkFired(s, h)) && h !in ArtworkFired(s, h).sources
  {
    RemoveUntrackedInv(s, h);
  }

  /** The resize runs once: the results view takes the height it carried. */
  lemma ResizeFiredShows(s: IndicatorState, h: SourceId)
    requires Inv(s) && h in s.sources && s.sources[h].ResizeResults?
    ensures var t := ResizeFired(s, h);
            && Inv(t) && h !in t.sources && t.scrollHeight == Some(s.sources[h].height)
  {
    var s1 := s.(scrollHeight := Some(s.sources[h].height));
    InvFrame(s, s1);
    RemoveUntrackedInv(s1, h);
  }

  /** An overlay animation runs on; its frame index wraps within the 30 frames. */
  lemma OverlayFrameFiredShows(s: IndicatorState, h: SourceId)
    requires Inv(s) && IsOverlay(s, h)
    ensures var t := OverlayFrameFired(s, h);
            && Inv(t) && IsOverlay(t, h)
            && t.sources[h].frame == (s.sources[h].frame + 1) % FRAME_COUNT
            && t.sources.Keys == s.sources.Keys
  {
    var t := OverlayFrameFired(s, h);
    assert forall g: SourceId :: IsSearch(t, g) ==> IsSearch(s, g);
    assert forall g: SourceId :: IsProgress(t, g) ==> IsProgress(s, g);
    assert forall g: SourceId :: IsSpinner(t, g) ==> IsSpinner(s, g);
    assert forall g: SourceId :: IsRowTimer(t, g) ==> IsRowTimer(s, g);
    assert forall g: SourceId :: IsOverlay(s, g) ==> IsOverlay(t, g);
  }

  // ---------------------------------------------------------------------
  // Clicking a row

  /** Stopping the current overlay animation keeps the invariant and removes its wrapper everywhere. */
  lemma CancelOverlayInv(s: IndicatorState)
    requires Inv(s)
    ensures var t := CancelOverlay(s);
            && Inv(t) && t.currentOverlay.None?
            && (s.currentOverlay.Some? ==> s.currentOverlay.value !in t.sources)
            && |t.rows| == |s.rows|
            && (forall k :: 0 <= k < |s.rows| ==> t.rows[k].index == s.rows[k].index && t.rows[k].highlighted == s.rows[k].highlighted)
            && (forall h :: h in t.sources ==> h in s.sources && t.sources[h] == s.sources[h])
            && (forall h :: h in s.sources && s.currentOverlay != Some(h) ==> h in t.sources)
            && t == s.(sources := t.sources, rows := t.rows, currentOverlay := None)
            && (OverlayTidy(s) ==> forall h: SourceId :: !IsOverlay(t, h))
  {
    match s.currentOverlay
    case None =>
    case Some(o) =>
      var t := CancelOverlay(s);
      assert forall g: SourceId :: IsSearch(t, g) ==> IsSearch(s, g);
      assert forall g: SourceId :: IsProgress(t, g) ==> IsProgress(s, g);
      assert forall g: SourceId :: IsSpinner(t, g) ==> IsSpinner(s, g);
      assert forall g: SourceId :: IsRowTimer(t, g) ==> IsRowTimer(s, g);
      forall k, g | 0 <= k < |t.rows| && g in t.rows[k].overlays
        ensures IsOverlay(t, g)
      {
        assert g in s.rows[k].overlays && g != o;
        assert IsOverlay(s, g);
      }
      if OverlayTidy(s) {
        forall g: SourceId | IsOverlay(t, g)
          ensures false
        {
          assert IsOverlay(s, g);
        }
      }
  }

  /** Scheduling a fresh overlay animation on row `i` and making it current keeps the invariant. */
  lemma AddOverlayInv(s: IndicatorState, i: nat)
    requires Inv(s) && i < |s.rows|
    ensures var t := AddSource(s, OverlayFrame(0)).(rows := AddWrapper(s.rows, i, s.nextSource), currentOverlay := Some(s.nextSource));
            && Inv(t)
            && (forall h: SourceId :: IsOverlay(t, h) ==> h == s.nextSource || IsOverlay(s, h))
  {
    var t := AddSource(s, OverlayFrame(0)).(rows := AddWrapper(s.rows, i, s.nextSource), currentOverlay := Some(s.nextSource));
    assert forall g: SourceId :: IsSearch(t, g) ==> IsSearch(s, g);
    assert forall g: SourceId :: IsProgress(t, g) ==> IsProgress(s, g);
    assert forall g: SourceId :: IsSpinner(t, g) ==> IsSpinner(s, g);
    assert forall g: SourceId :: IsRowTimer(t, g) ==> IsRowTimer(s, g);
    forall k, g | 0 <= k < |t.rows| && g in t.rows[k].overlays
      ensures IsOverlay(t, g)
    {
      if g != s.nextSource {
        assert g in s.rows[k].overlays;
        assert IsOverlay(s, g);
      }
    }
  }

  /** Recolouring the titles keeps the invariant. */
  lemma HighlightInv(s: IndicatorState, i: nat, id: Option<SongId>)
    requires Inv(s)
    ensures Inv(s.(rows := HighlightOnly(s.rows, i), currentPlayingId := id))
  {
    var t := s.(rows := HighlightOnly(s.rows, i), currentPlayingId := id);
    forall k, g | 0 <= k < |t.rows| && g in t.rows[k].overlays
      ensures IsOverlay(t, g)
    {
      assert g in s.rows[k].overlays;
      assert IsOverlay(s, g);
    }
    assert forall g: SourceId :: IsSearch(t, g) ==> IsSearch(s, g);
    assert forall g: SourceId :: IsProgress(t, g) ==> IsProgress(s, g);
    assert forall g: SourceId :: IsSpinner(t, g) ==> IsSpinner(s, g);
    assert forall g: SourceId :: IsRowTimer(t, g) ==> IsRowTimer(s, g);
  }

  /**
   * The first half of a click on row `i`: `_currentIndex` is `i`, the old
   * overlay animation is stopped, a fresh one on row `i` is the current
   * overlay, only row `i` has the now-playing colour, the song's id is the
   * playing id, and the player is not touched.
   */
  lemma SelectRowShows(s: IndicatorState, i: nat)
    requires Inv(s) && i < |s.rows| && i < |s.renderedResults|
    ensures var t := SelectRow(s, i);
            && Inv(t)
            && t.currentIndex == i
            && t.currentPlayingId == Some(s.renderedResults[i].id)
            && t.currentOverlay.Some? && IsOverlay(t, t.currentOverlay.value)
            && t.sources[t.currentOverlay.value] == OverlayFrame(0)
            && t.currentOverlay.value in t.rows[i].overlays
            && (s.currentOverlay.Some? ==> s.currentOverlay.value !in t.sources)
            && |t.rows| == |s.rows|
            && (forall k :: 0 <= k < |t.rows| ==> t.rows[k].highlighted == (k == i) && t.rows[k].index == s.rows[k].index)
            && t.players == s.players && t.currentPlayer == s.currentPlayer
            && t.isPlaying == s.isPlaying && t.progressId == s.progressId
            && t.renderedResults == s.renderedResults
            && (OverlayTidy(s) ==> OverlayTidy(t))
            && OnlyFreshAdded(s, t)
  {
    SelectRowInv(s, i);
    SelectRowFrame(s, i);
  }

  /** The part of SelectRowShows that needs no invariant: what each field becomes. */
  lemma SelectRowFrame(s: IndicatorState, i: nat)
    requires i < |s.rows| && i < |s.renderedResults|
    ensures var t := SelectRow(s, i);
            && t.currentIndex == i
            && t.currentPlayingId == Some(s.renderedResults[i].id)
            && t.currentOverlay.Some? && t.currentOverlay.value in t.sources
            && t.sources[t.currentOverlay.value] == OverlayFrame(0)
            && t.currentOverlay.value in t.rows[i].overlays
            && |t.rows| == |s.rows|
            && (forall k :: 0 <= k < |t.rows| ==> t.rows[k].highlighted == (k == i) && t.rows[k].index == s.rows[k].index)
            && t.players == s.players && t.currentPlayer == s.currentPlayer
            && t.isPlaying == s.isPlaying && t.progressId == s.progressId
            && t.renderedResults == s.renderedResults
  {
    var s1 := CancelOverlay(s.(currentIndex := i));
    assert |s1.rows| == |s.rows| && forall k :: 0 <= k < |s.rows| ==> s1.rows[k].index == s.rows[k].index;
  }

  /** The part of SelectRowShows about the invariant and the sources. */
  lemma SelectRowInv(s: IndicatorState, i: nat)
    requires Inv(s) && i < |s.rows| && i < |s.renderedResults|
    ensures var t := SelectRow(s, i);
            && Inv(t)
            && (s.currentOverlay.Some? ==> s.currentOverlay.value !in t.sources)
            && (OverlayTidy(s) ==> OverlayTidy(t))
            && OnlyFreshAdded(s, t)
  {
    var s0 := s.(currentIndex := i);
    InvFrame(s, s0);
    var s1 := CancelOverlay(s0);
    CancelOverlayInv(s0);
    var s2 := AddSource(s1, OverlayFrame(0)).(rows := AddWrapper(s1.rows, i, s1.nextSource), currentOverlay := Some(s1.nextSource));
    AddOverlayInv(s1, i);
    HighlightInv(s2, i, Some(s.renderedResults[i].id));
    SelectRowSources(s, i);
    SelectRowTidy(s, SelectRow(s, i));
  }

  /** Proof step: a click cancels the current overlay animation and starts one with the next id. */
  lemma SelectRowSources(s: IndicatorState, i: nat)
    requires i < |s.rows| && i < |s.renderedResults|
    ensures var t := SelectRow(s, i);
            && t.sources == (s.sources - Named(s.currentOverlay))[s.nextSource := OverlayFrame(0)]
            && t.nextSource == s.nextSource + 1 && t.currentOverlay == Some(s.nextSource)
  {
  }

  /** Replacing the current overlay animation by a fresh one adds no other animation. */
  lemma SelectRowTidy(s: IndicatorState, t: IndicatorState)
    requires forall h :: h in s.sources ==> h < s.nextSource
    requires s.currentOverlay.Some? ==> s.currentOverlay.value in s.sources
    requires t.sources == (s.sources - Named(s.currentOverlay))[s.nextSource := OverlayFrame(0)]
    requires t.nextSource == s.nextSource + 1 && t.currentOverlay == Some(s.nextSource)
    ensures s.currentOverlay.Some? ==> s.currentOverlay.value !in t.sources
    ensures OverlayTidy(s) ==> OverlayTidy(t)
    ensures OnlyFreshAdded(s, t)
  {
    if OverlayTidy(s) {
      forall h: SourceId | IsOverlay(t, h)
        ensures t.currentOverlay == Some(h)
      {
        assert h != s.nextSource ==> IsOverlay(s, h);
      }
    }
  }

  /** Stopping the current player and dropping it keeps the invariant. */
  lemma ReleasePlayerInv(s: IndicatorState)
    requires Inv(s)
    ensures var t := ReleasePlayer(s);
            && Inv(t) && t.currentPlayer.None? && |t.players| == |s.players|
            && (forall k :: 0 <= k < |s.players| ==> t.players[k].state == Null)
            && (forall k :: 0 <= k < |s.players| ==> t.players[k].uri == s.players[k].uri)
            && t == s.(players := t.players, currentPlayer := None)
  {
  }

  /** Making the new playbin current keeps every part of the invariant but the poll's. */
  lemma LaunchPlayerInv(s: IndicatorState, url: string)
    requires Inv(s) && s.currentPlayer.None?
    ensures var t := LaunchPlayer(s, url);
            && SourcesFresh(t) && SearchTimerTracked(t) && ProgressTimerTracked(t) && SpinnerTracked(t)
            && RowTimersTracked(t) && OverlaysTracked(t) && RowsMatchResults(t)
            && OnePlayerLive(t) && t.pauseIcon == t.isPlaying && t.currentIndex >= -1
  {
    AddLivePlayerPieces(s, Player(PlaybackUri(url), Playing));
  }

  /** LaunchPlayerInv for any new playbin in the PLAYING state. */
  lemma AddLivePlayerPieces(s: IndicatorState, pl: Player)
    requires Inv(s) && s.currentPlayer.None? && pl.state == Playing
    ensures var t := s.(players := s.players + [pl], currentPlayer := Some(|s.players|), isPlaying := true, pauseIcon := true);
            && SourcesFresh(t) && SearchTimerTracked(t) && ProgressTimerTracked(t) && SpinnerTracked(t)
            && RowTimersTracked(t) && OverlaysTracked(t) && RowsMatchResults(t)
            && OnePlayerLive(t) && t.pauseIcon == t.isPlaying && t.currentIndex >= -1
  {
    var u := s.(players := s.players + [pl], currentPlayer := Some(|s.players|), isPlaying := true, pauseIcon := true);
    assert forall g: SourceId :: IsSearch(u, g) ==> IsSearch(s, g);
    assert forall g: SourceId :: IsProgress(u, g) ==> IsProgress(s, g);
    assert forall g: SourceId :: IsSpinner(u, g) ==> IsSpinner(s, g);
    assert forall g: SourceId :: IsRowTimer(u, g) ==> IsRowTimer(s, g);
    forall k, g | 0 <= k < |u.rows| && g in u.rows[k].overlays
      ensures IsOverlay(u, g)
    {
      assert IsOverlay(s, g);
    }
  }

  /** The first half of `_startTrackingProgress`: the old poll, if any, is removed. */
  lemma DropPollPieces(s: IndicatorState)
    requires SourcesFresh(s) && SearchTimerTracked(s) && ProgressTimerTracked(s) && SpinnerTracked(s)
    requires RowTimersTracked(s) && OverlaysTracked(s)
    ensures var u := DropPoll(s);
            && SourcesFresh(u) && SearchTimerTracked(u) && SpinnerTracked(u)
            && RowTimersTracked(u) && OverlaysTracked(u)
            && (forall g: SourceId :: !IsProgress(u, g))
  {
    var u := DropPoll(s);
    forall g: SourceId | IsProgress(u, g)
      ensures false
    {
      assert IsProgress(s, g);
    }
    assert SearchTimerTracked(u) by {
      assert forall g: SourceId :: IsSearch(u, g) ==> IsSearch(s, g);
    }
    assert SpinnerTracked(u) by {
      assert forall g: SourceId :: IsSpinner(u, g) ==> IsSpinner(s, g);
    }
    assert RowTimersTracked(u) by {
      assert forall g: SourceId :: IsRowTimer(u, g) ==> IsRowTimer(s, g);
    }
    assert OverlaysTracked(u) by {
      forall k, g | 0 <= k < |u.rows| && g in u.rows[k].overlays
        ensures IsOverlay(u, g)
      {
        assert IsOverlay(s, g);
      }
    }
  }

  /** The second half: a fresh poll is added and recorded. */
  lemma AddPollPieces(u: IndicatorState)
    requires SourcesFresh(u) && SearchTimerTracked(u) && SpinnerTracked(u)
    requires RowTimersTracked(u) && OverlaysTracked(u)
    requires forall g: SourceId :: !IsProgress(u, g)
    ensures var n := u.nextSource;
            var t := AddPoll(u);
            && SourcesFresh(t) && SearchTimerTracked(t) && ProgressTimerTracked(t) && SpinnerTracked(t)
            && RowTimersTracked(t) && OverlaysTracked(t)
            && (forall h: SourceId :: IsProgress(t, h) ==> h == n)
  {
    var n := u.nextSource;
    var t := AddPoll(u);
    forall g: SourceId | IsProgress(t, g)
      ensures g == n
    {
      assert g != n ==> IsProgress(u, g);
    }
    assert SearchTimerTracked(t) by {
      assert forall g: SourceId :: IsSearch(t, g) ==> IsSearch(u, g);
    }
    assert SpinnerTracked(t) by {
      assert forall g: SourceId :: IsSpinner(t, g) ==> IsSpinner(u, g);
    }
    assert RowTimersTracked(t) by {
      assert forall g: SourceId :: IsRowTimer(t, g) ==> IsRowTimer(u, g);
    }
    assert OverlaysTracked(t) by {
      forall k, g | 0 <= k < |t.rows| && g in t.rows[k].overlays
        ensures IsOverlay(t, g)
      {
        assert IsOverlay(u, g);
      }
    }
  }

  lemma StartTrackingInv(s: IndicatorState)
    requires SourcesFresh(s) && SearchTimerTracked(s) && ProgressTimerTracked(s) && SpinnerTracked(s)
    requires RowTimersTracked(s) && OverlaysTracked(s) && RowsMatchResults(s)
    requires s.currentPlayer.Some?
    ensures var t := StartTrackingProgress(s);
            && SourcesFresh(t) && SearchTimerTracked(t) && ProgressTimerTracked(t) && SpinnerTracked(t)
            && RowTimersTracked(t) && OverlaysTracked(t) && RowsMatchResults(t)
            && t.progressId == Some(s.nextSource) && IsProgress(t, s.nextSource)
            && (forall h: SourceId :: IsProgress(t, h) ==> h == s.nextSource)
            && (s.progressId.Some? ==> s.progressId.value !in t.sources)
            && (forall h :: h in s.sources && s.progressId != Some(h) ==> h in t.sources && t.sources[h] == s.sources[h])
            && (forall h :: h in t.sources && h < s.nextSource ==> h in s.sources)
  {
    DropPollPieces(s);
    AddPollPieces(DropPoll(s));
  }

  /** `_startTrackingProgress` changes the sources, the next id and `progressId`, and nothing else. */
  lemma StartTrackingFrame(s: IndicatorState)
    requires s.currentPlayer.Some?
    ensures var t := StartTrackingProgress(s);
            t == s.(sources := t.sources, nextSource := s.nextSource + 1, progressId := Some(s.nextSource))
  {
  }

  /** `_playAudio` when a playbin is made. */
  lemma PlayAudioMade(s: IndicatorState, url: string)
    requires Inv(s)
    ensures var t := PlayAudio(s, url, true);
            && Inv(t)
            && |t.players| == |s.players| + 1
            && (forall k :: 0 <= k < |s.players| ==> t.players[k].state == Null)
            && t.currentPlayer == Some(|s.players|)
            && t.players[|s.players|] == Player(PlaybackUri(url), Playing)
            && t.isPlaying && t.pauseIcon
            && t.progressId.Some? && IsProgress(t, t.progressId.value)
            && (forall h: SourceId :: IsProgress(t, h) ==> t.progressId == Some(h))
            && (s.progressId.Some? ==> s.progressId.value !in t.sources)
            && (forall h :: h in s.sources && s.progressId != Some(h) ==> h in t.sources && t.sources[h] == s.sources[h])
            && (forall h :: h in t.sources && h < s.nextSource ==> h in s.sources)
            && s.nextSource < t.nextSource
            && t == s.(sources := t.sources, nextSource := t.nextSource, players := t.players,
                       currentPlayer := t.currentPlayer, isPlaying := true, pauseIcon := true,
                       progressId := t.progressId)
  {
    var s1 := ReleasePlayer(s);
    ReleasePlayerInv(s);
    var u := LaunchPlayer(s1, url);
    LaunchPlayerInv(s1, url);
    StartTrackingInv(u);
    StartTrackingFrame(u);
    assert forall k :: 0 <= k < |s.players| ==> u.players[k] == s1.players[k];
  }

  /** `_playAudio` when no playbin can be made: no player is left, nothing else changes. */
  lemma PlayAudioFailed(s: IndicatorState, url: string)
    requires Inv(s)
    ensures var t := PlayAudio(s, url, false);
            && Inv(t)
            && (forall k :: 0 <= k < |s.players| ==> t.players[k].state == Null)
            && t == s.(players := t.players, currentPlayer := None)
  {
    ReleasePlayerInv(s);
  }

  /** Two states show the same rows and the same selection. */
  predicate SameSelection(a: IndicatorState, b: IndicatorState) {
    && a.rows == b.rows && a.currentIndex == b.currentIndex && a.currentOverlay == b.currentOverlay
    && a.currentPlayingId == b.currentPlayingId && a.renderedResults == b.renderedResults
  }

  /** `_playAudio` leaves the rows, the selection, the labels and the overlays alone. */
  lemma PlayAudioKeepsSelection(s: IndicatorState, url: string, made: bool)
    requires Inv(s)
    ensures var t := PlayAudio(s, url, made);
            && Inv(t)
            && t.rows == s.rows && t.currentIndex == s.currentIndex && t.currentOverlay == s.currentOverlay
            && t.currentPlayingId == s.currentPlayingId && t.songLabel == s.songLabel && t.artistLabel == s.artistLabel
            && t.renderedResults == s.renderedResults
            && (forall h: SourceId :: IsOverlay(t, h) ==> IsOverlay(s, h))
            && OnlyFreshAdded(s, t)
  {
    if made {
      PlayAudioMade(s, url);
      var t := PlayAudio(s, url, made);
      forall h: SourceId | IsOverlay(t, h)
        ensures IsOverlay(s, h)
      {
        if h < s.nextSource {
          assert h in s.sources;
        }
      }
    } else {
      PlayAudioFailed(s, url);
    }
  }

  /** A click with audio: the selection, then the labels, then `_playAudio`. */
  lemma RowClickedAudio(s: IndicatorState, i: nat, made: bool)
    requires Inv(s) && i < |s.rows| && i < |s.renderedResults| && AudioUrl(s.renderedResults[i]).Some?
    ensures var r := s.renderedResults[i];
            var s2 := SelectRow(s, i).(songLabel := r.name, artistLabel := ArtistText(r));
            var t := RowClicked(s, i, made);
            && Inv(s2) && t == PlayAudio(s2, AudioUrl(r).value, made)
            && Inv(t)
            && SameSelection(SelectRow(s, i), t) && OnlyFreshAdded(SelectRow(s, i), t)
            && (s.currentOverlay.Some? ==> s.currentOverlay.value !in t.sources)
            && (OverlayTidy(s) ==> OverlayTidy(t))
  {
    var r := s.renderedResults[i];
    SelectRowShows(s, i);
    var s1 := SelectRow(s, i);
    var s2 := s1.(songLabel := r.name, artistLabel := ArtistText(r));
    InvFrame(s1, s2);
    PlayAudioKeepsSelection(s2, AudioUrl(r).value, made);
    var t := PlayAudio(s2, AudioUrl(r).value, made);
    if s.currentOverlay.Some? {
      assert s.currentOverlay.value < s2.nextSource;
    }
    if OverlayTidy(s) {
      forall h: SourceId | IsOverlay(t, h)
        ensures t.currentOverlay == Some(h)
      {
        assert IsOverlay(s2, h);
        assert IsOverlay(s1, h);
      }
    }
  }

  /**
   * A click on row `i`: `_currentIndex` is `i`, the song is the playing
   * id, only row `i` has the now-playing colour, the previous overlay
   * animation is gone and a fresh one on row `i` is current.
   */
  lemma RowClickedSelects(s: IndicatorState, i: nat, made: bool)
    requires Inv(s) && i < |s.rows| && i < |s.renderedResults|
    ensures var t := RowClicked(s, i, made);
            && Inv(t)
            && t.currentIndex == i && t.currentPlayingId == Some(s.renderedResults[i].id)
            && |t.rows| == |s.rows|
            && (forall k :: 0 <= k < |t.rows| ==> t.rows[k].highlighted == (k == i))
            && t.currentOverlay.Some? && t.currentOverlay.value in t.rows[i].overlays
            && (s.currentOverlay.Some? ==> s.currentOverlay.value !in t.sources)
            && (OverlayTidy(s) ==> OverlayTidy(t))
            && t.renderedResults == s.renderedResults
            && OnlyFreshAdded(s, t)
  {
    SelectRowShows(s, i);
    if AudioUrl(s.renderedResults[i]).Some? {
      RowClickedAudio(s, i, made);
    }
  }

  /** Clicking a song with a 320kbps link shows its name and artists and plays that link. */
  lemma RowClickedPlays(s: IndicatorState, i: nat)
    requires Inv(s) && i < |s.rows| && i < |s.renderedResults| && AudioUrl(s.renderedResults[i]).Some?
    ensures var t := RowClicked(s, i, true);
            var r := s.renderedResults[i];
            && t.songLabel == r.name && t.artistLabel == ArtistText(r)
            && t.currentPlayer == Some(|s.players|)
            && t.players[|s.players|] == Player(PlaybackUri(AudioUrl(r).value), Playing)
            && t.isPlaying && t.pauseIcon
            && (forall k :: 0 <= k < |s.players| ==> t.players[k].state == Null)
  {
    RowClickedAudio(s, i, true);
    SelectRowShows(s, i);
    var r := s.renderedResults[i];
    PlayAudioMade(SelectRow(s, i).(songLabel := r.name, artistLabel := ArtistText(r)), AudioUrl(r).value);
  }

  /**
   * Clicking a song without a 320kbps link still selects its row (the
   * index, the playing id, the overlay and the colour move to it), but the
   * labels, the player and the progress poll stay as they were.
   */
  lemma RowClickedWithoutAudio(s: IndicatorState, i: nat, made: bool)
    requires Inv(s) && i < |s.rows| && i < |s.renderedResults| && AudioUrl(s.renderedResults[i]).None?
    ensures var t := RowClicked(s, i, made);
            && t == SelectRow(s, i)
            && t.currentIndex == i && t.currentPlayingId == Some(s.renderedResults[i].id)
            && t.players == s.players && t.currentPlayer == s.currentPlayer
            && t.isPlaying == s.isPlaying && t.progressId == s.progressId
            && t.songLabel == s.songLabel && t.artistLabel == s.artistLabel
  {
    SelectRowShows(s, i);
  }

  // ---------------------------------------------------------------------
  // Transport

  /** `_togglePlayPause`: with a player, playing and paused swap, icon included; nothing else changes. */
  lemma TogglePlayPauseShows(s: IndicatorState)
    requires Inv(s)
    ensures var t := TogglePlayPause(s);
            && Inv(t)
            && (s.currentPlayer.None? ==> t == s)
            && (s.currentPlayer.Some? ==>
                  var p := s.currentPlayer.value;
                  && t.isPlaying == !s.isPlaying && t.pauseIcon == t.isPlaying
                  && t.players[p].state == (if t.isPlaying then Playing else Paused)
                  && t.players[p].uri == s.players[p].uri
                  && |t.players| == |s.players|
                  && (forall k :: 0 <= k < |s.players| && k != p ==> t.players[k] == s.players[k])
                  && t == s.(players := t.players, isPlaying := t.isPlaying, pauseIcon := t.pauseIcon))
  {
  }

  /** The player's state agrees with `isPlaying`, as after `_playAudio` or a toggle. */
  predicate PlayerAgrees(s: IndicatorState) {
    && PlayerInRange(s)
    && s.pauseIcon == s.isPlaying
    && (s.currentPlayer.Some? ==>
          s.players[s.currentPlayer.value].state == (if s.isPlaying then Playing else Paused))
  }

  /** Toggling twice gives back the state toggled from. */
  lemma ToggleTwice(s: IndicatorState)
    requires PlayerAgrees(s)
    ensures PlayerAgrees(TogglePlayPause(s))
    ensures TogglePlayPause(TogglePlayPause(s)) == s
  {
    if s.currentPlayer.Some? {
      var p := s.currentPlayer.value;
      var t := TogglePlayPause(s);
      assert t.players[p := t.players[p].(state := s.players[p].state)] == s.players;
    }
  }

  /**
   * `_playNext`: with no results, or no rows to click, nothing happens;
   * otherwise the row after `_currentIndex` is clicked, wrapping from the
   * last row (or a stale index beyond it) to the first.
   */
  lemma PlayNextShows(s: IndicatorState, made: bool)
    requires Inv(s)
    ensures var t := PlayNext(s, made);
            var n := |s.renderedResults|;
            && Inv(t)
            && (n == 0 || s.rows == [] ==> t == s)
            && (n > 0 && s.rows != [] ==>
                  var j := if s.currentIndex < n - 1 then s.currentIndex + 1 else 0;
                  && 0 <= j < n && t == RowClicked(s, j, made)
                  && t.currentIndex == j && t.currentPlayingId == Some(s.renderedResults[j].id))
            && t.renderedResults == s.renderedResults && |t.rows| == |s.rows|
            && OnlyFreshAdded(s, t)
  {
    var n := |s.renderedResults|;
    if n > 0 && s.rows != [] {
      var j := NextIndex(s.currentIndex, n);
      RowClickedSelects(s, j, made);
    }
  }

  /**
   * `_playPrevious`: with no results, or no rows, nothing happens; from the
   * first row (or no row yet) the last row is clicked; from any other row
   * the one before it; a stale index beyond the results is ignored.
   */
  lemma PlayPreviousShows(s: IndicatorState, made: bool)
    requires Inv(s)
    ensures var t := PlayPrevious(s, made);
            var n := |s.renderedResults|;
            && Inv(t)
            && (n == 0 || s.rows == [] || s.currentIndex > n ==> t == s)
            && (n > 0 && s.rows != [] && s.currentIndex <= n ==>
                  var j := if s.currentIndex <= 0 then n - 1 else s.currentIndex - 1;
                  && 0 <= j < n && t == RowClicked(s, j, made)
                  && t.currentIndex == j && t.currentPlayingId == Some(s.renderedResults[j].id))
            && t.renderedResults == s.renderedResults && |t.rows| == |s.rows|
            && OnlyFreshAdded(s, t)
  {
    var n := |s.renderedResults|;
    if n > 0 {
      var j := PrevIndex(s.currentIndex, n);
      assert PlayPrevious(s, made) == ClickIfPresent(s, j, made);
      if 0 <= j < n && j < |s.rows| {
        assert j == if s.currentIndex <= 0 then n - 1 else s.currentIndex - 1;
        RowClickedSelects(s, j, made);
      } else {
        assert PlayPrevious(s, made) == s;
      }
    }
  }

  /** The part of PlayNextShows an end-of-track tick needs. */
  lemma PlayNextFresh(s: IndicatorState, made: bool)
    requires Inv(s)
    ensures Inv(PlayNext(s, made)) && OnlyFreshAdded(s, PlayNext(s, made))
  {
    PlayNextShows(s, made);
  }

  /** Playbins are never dropped, and one put into NULL stays there. */
  ghost predicate StoppedStay(s: IndicatorState, t: IndicatorState) {
    && |s.players| <= |t.players|
    && forall k :: 0 <= k < |s.players| && s.players[k].state == Null ==> t.players[k].state == Null
  }

  lemma SelectRowKeepsPlayers(s: IndicatorState, i: nat)
    requires i < |s.rows| && i < |s.renderedResults|
    ensures SelectRow(s, i).players == s.players && SelectRow(s, i).currentPlayer == s.currentPlayer
  {
  }

  lemma PlayAudioKeepsStopped(s: IndicatorState, url: string, made: bool)
    requires PlayerInRange(s)
    ensures StoppedStay(s, PlayAudio(s, url, made))
  {
    var s1 := ReleasePlayer(s);
    assert StoppedStay(s, s1);
    if made {
      var s2 := LaunchPlayer(s1, url);
      assert StoppedStay(s, s2);
      assert StartTrackingProgress(s2).players == s2.players;
    }
  }

  lemma PlayNextKeepsStopped(s: IndicatorState, made: bool)
    requires PlayerInRange(s)
    ensures StoppedStay(s, PlayNext(s, made))
  {
    var n := |s.renderedResults|;
    if n > 0 {
      var j := NextIndex(s.currentIndex, n);
      if 0 <= j < n && j < |s.rows| {
        var r := s.renderedResults[j];
        SelectRowKeepsPlayers(s, j);
        if AudioUrl(r).Some? {
          PlayAudioKeepsStopped(SelectRow(s, j).(songLabel := r.name, artistLabel := ArtistText(r)), AudioUrl(r).value, made);
        }
      }
    }
  }

  /** From a playing row, next then previous comes back to it. */
  lemma NextThenPrevious(s: IndicatorState, made: bool)
    requires Inv(s) && 0 <= s.currentIndex < |s.renderedResults| && s.rows != []
    ensures PlayerInRange(PlayNext(s, made))
    ensures PlayPrevious(PlayNext(s, made), made).currentIndex == s.currentIndex
  {
    var t := PlayNext(s, made);
    PlayNextShows(s, made);
    var n := |s.renderedResults|;
    var j := if s.currentIndex < n - 1 then s.currentIndex + 1 else 0;
    assert t.currentIndex == j && t.renderedResults == s.renderedResults && t.rows != [] && Inv(t);
    PlayPreviousShows(t, made);
  }

  // ---------------------------------------------------------------------
  // The progress poll

  /** With no player the poll's queries throw and the source is dropped. */
  lemma ProgressTickNoPlayer(s: IndicatorState, h: SourceId, okPos: bool, pos: int, okDur: bool, dur: int, made: bool)
    requires Inv(s) && IsProgress(s, h) && s.currentPlayer.None?
    ensures var t := ProgressTick(s, h, okPos, pos, okDur, dur, made);
            && Inv(t) && t == RemoveSource(s, h) && !IsProgress(t, h)
  {
    RemoveUntrackedInv(s, h);
  }

  /**
   * A tick before the end of the track keeps polling (the same source, the
   * same `progressId`); with both answers and a positive duration the
   * clock labels show the position and the duration, otherwise nothing
   * changes.
   */
  lemma ProgressTickPolls(s: IndicatorState, h: SourceId, okPos: bool, pos: int, okDur: bool, dur: int, made: bool)
    requires Inv(s) && IsProgress(s, h) && s.currentPlayer.Some?
    requires !AtTrackEnd(okPos, pos, okDur, dur)
    ensures var t := ProgressTick(s, h, okPos, pos, okDur, dur, made);
            && Inv(t) && t.sources == s.sources && t.progressId == s.progressId
            && (okPos && okDur && dur > 0 ==>
                  t == s.(currentTimeLabel := ClockLabel(pos), totalTimeLabel := ClockLabel(dur)))
            && (!(okPos && okDur && dur > 0) ==> t == s)
  {
    if okPos && okDur && dur > 0 {
      InvFrame(s, s.(currentTimeLabel := ClockLabel(pos), totalTimeLabel := ClockLabel(dur)));
    }
  }

  lemma TrackEndedInv(s: IndicatorState, h: SourceId)
    requires Inv(s) && IsProgress(s, h) && s.currentPlayer.Some?
    ensures var t := TrackEnded(s, s.currentPlayer.value);
            && Inv(t) && h !in t.sources && t.progressId.None? && (forall g: SourceId :: !IsProgress(t, g))
            && t.players[s.currentPlayer.value].state == Null && t.currentPlayer == s.currentPlayer
            && t.nextSource == s.nextSource && t.renderedResults == s.renderedResults
            && t.rows == s.rows && t.currentIndex == s.currentIndex
  {
    var t := TrackEnded(s, s.currentPlayer.value);
    assert s.progressId == Some(h);
    assert forall g: SourceId :: IsSearch(t, g) ==> IsSearch(s, g);
    assert forall g: SourceId :: IsSpinner(t, g) ==> IsSpinner(s, g);
    assert forall g: SourceId :: IsRowTimer(t, g) ==> IsRowTimer(s, g);
    forall g: SourceId | IsProgress(t, g)
      ensures false
    {
      assert IsProgress(s, g);
    }
    forall k, g | 0 <= k < |t.rows| && g in t.rows[k].overlays
      ensures IsOverlay(t, g)
    {
      assert IsOverlay(s, g);
    }
  }

  /** Proof step: the end-of-track branch of the progress poll unfolded. */
  lemma ProgressTickAtEndIs(s: IndicatorState, h: SourceId, okPos: bool, pos: int, okDur: bool, dur: int, made: bool)
    requires Inv(s) && IsProgress(s, h) && s.currentPlayer.Some? && AtTrackEnd(okPos, pos, okDur, dur)
    ensures ProgressTick(s, h, okPos, pos, okDur, dur, made) == PlayNext(TrackEnded(s, s.currentPlayer.value), made)
  {
    var s2 := TrackEnded(s, s.currentPlayer.value);
    TrackEndedInv(s, h);
    PlayNextFresh(s2, made);
    var t := PlayNext(s2, made);
    assert h < s2.nextSource && h !in t.sources;
    assert RemoveSource(t, h).sources == t.sources;
  }

  /**
   * At the end of a track (position within 200 ms of a positive duration)
   * the poll is cancelled for good, the finished playbin is put into NULL
   * and `_playNext` runs on the rendered results.
   */
  lemma ProgressTickAdvances(s: IndicatorState, h: SourceId, okPos: bool, pos: int, okDur: bool, dur: int, made: bool)
    requires Inv(s) && IsProgress(s, h) && s.currentPlayer.Some? && AtTrackEnd(okPos, pos, okDur, dur)
    ensures var t := ProgressTick(s, h, okPos, pos, okDur, dur, made);
            var n := |s.renderedResults|;
            && Inv(t) && h !in t.sources
            && s.currentPlayer.value < |t.players| && t.players[s.currentPlayer.value].state == Null
            && (n > 0 && s.rows != [] ==>
                  t.currentIndex == if s.currentIndex < n - 1 then s.currentIndex + 1 else 0)
  {
    ProgressTickAtEndIs(s, h, okPos, pos, okDur, dur, made);
    var s2 := TrackEnded(s, s.currentPlayer.value);
    TrackEndedInv(s, h);
    PlayNextShows(s2, made);
    PlayNextKeepsStopped(s2, made);
  }

  /** The last song ending wraps playback round to the first row. */
  lemma AutoAdvanceWraps(s: IndicatorState, h: SourceId, okPos: bool, pos: int, okDur: bool, dur: int, made: bool)
    requires Inv(s) && IsProgress(s, h) && s.currentPlayer.Some? && AtTrackEnd(okPos, pos, okDur, dur)
    requires s.rows != [] && s.currentIndex == |s.renderedResults| - 1
    ensures ProgressTick(s, h, okPos, pos, okDur, dur, made).currentIndex == 0
  {
    ProgressTickAdvances(s, h, okPos, pos, okDur, dur, made);
  }

  /**
   * When the next song has no 320kbps link, the ended playbin stays the
   * current player, in NULL, with no progress poll: playback stops there.
   */
  lemma AutoAdvanceStopsOnSongWithoutAudio(s: IndicatorState, h: SourceId, okPos: bool, pos: int, okDur: bool, dur: int, made: bool)
    requires Inv(s) && IsProgress(s, h) && s.currentPlayer.Some? && AtTrackEnd(okPos, pos, okDur, dur)
    requires s.rows != []
    requires AudioUrl(s.renderedResults[NextIndex(s.currentIndex, |s.renderedResults|)]).None?
    ensures var t := ProgressTick(s, h, okPos, pos, okDur, dur, made);
            && Inv(t)
            && t.currentPlayer == s.currentPlayer && t.players[s.currentPlayer.value].state == Null
            && t.isPlaying == s.isPlaying && t.pauseIcon == s.pauseIcon
            && t.progressId.None? && (forall g: SourceId :: !IsProgress(t, g))
  {
    ProgressTickAtEndIs(s, h, okPos, pos, okDur, dur, made);
    var s2 := TrackEnded(s, s.currentPlayer.value);
    TrackEndedInv(s, h);
    var j := NextIndex(s.currentIndex, |s.renderedResults|);
    RowClickedWithoutAudio(s2, j, made);
    SelectRowShows(s2, j);
  }

  /**
   * A stopped (NULL) playbin while `_isPlaying` is still true, as
   * AutoAdvanceStopsOnSongWithoutAudio leaves it when playback was on: the
   * button does not agree with the playbin, the first press pauses it and
   * the second starts the ended song again, so pressing twice does not
   * give back the stopped state.
   */
  lemma ToggleTwiceRestartsStopped(t: IndicatorState)
    requires PlayerInRange(t) && t.currentPlayer.Some? && t.isPlaying
    requires t.players[t.currentPlayer.value].state == Null
    ensures var p := t.currentPlayer.value;
            && !PlayerAgrees(t)
            && TogglePlayPause(t).players[p].state == Paused && !TogglePlayPause(t).isPlaying
            && TogglePlayPause(TogglePlayPause(t)).players[p].state == Playing
            && TogglePlayPause(TogglePlayPause(t)) != t
  {
  }

  // ---------------------------------------------------------------------
  // Destroy

  /**
   * `destroy` cancels the debounce, the progress poll, the spinner loop,
   * the current overlay animation and every row timer, and resets their
   * handles; it only removes sources. The player is left as it was.
   */
  lemma DestroyCancels(s: IndicatorState)
    requires Inv(s)
    ensures var t := Destroy(s);
            && t.searchTimeout.None? && t.progressId.None? && t.spinLoopId.None? && t.currentOverlay.None?
            && t.rows == [] && t.rowTimeouts == []
            && (forall h: SourceId :: !IsSearch(t, h) && !IsProgress(t, h) && !IsSpinner(t, h) && !IsRowTimer(t, h))
            && (forall h :: h in t.sources ==> h in s.sources && t.sources[h] == s.sources[h])
            && (forall h :: h in t.sources ==> t.sources[h].OverlayFrame? || t.sources[h].ResizeResults?)
            && (OverlayTidy(s) ==> forall h :: h in t.sources ==> t.sources[h].ResizeResults?)
            && t.players == s.players && t.currentPlayer == s.currentPlayer && t.isPlaying == s.isPlaying
  {
    var s1 := CancelSearch(s);
    CancelSearchInv(s);
    var s2 := StopPolling(s1);
    StopPollingInv(s1);
    var s3 := DestroySpinner(s2);
    DestroySpinnerInv(s2);
    var s4 := CancelOverlay(s3);
    CancelOverlayInv(s3);
    var u := ClearAllRows(s4);
    ClearAllRowsCancels(s4);
    var t := Destroy(s);
    assert t == u.(spinnerShown := s.spinnerShown);
    forall g: SourceId
      ensures !IsSearch(t, g) && !IsProgress(t, g) && !IsSpinner(t, g) && !IsRowTimer(t, g)
    {
      assert !IsSearch(u, g) && !IsProgress(u, g) && !IsSpinner(u, g) && !IsRowTimer(u, g);
    }
    DestroyKinds(s, t);
  }

  /** Sources that a tidy-up state `t` keeps from `s`: no tracked kind is left. */
  lemma DestroyKinds(s: IndicatorState, t: IndicatorState)
    requires Inv(s) && t.currentOverlay.None?
    requires forall h :: h in t.sources ==> h in s.sources && t.sources[h] == s.sources[h]
    requires forall h: SourceId :: !IsSearch(t, h) && !IsProgress(t, h) && !IsSpinner(t, h) && !IsRowTimer(t, h)
    requires s.currentOverlay.Some? ==> s.currentOverlay.value !in t.sources
    ensures forall h :: h in t.sources ==> t.sources[h].OverlayFrame? || t.sources[h].ResizeResults?
    ensures OverlayTidy(s) ==> forall h :: h in t.sources ==> t.sources[h].ResizeResults?
  {
    forall g | g in t.sources
      ensures t.sources[g].OverlayFrame? || t.sources[g].ResizeResults?
    {
      assert !IsSearch(t, g) && !IsProgress(t, g) && !IsSpinner(t, g) && !IsRowTimer(t, g);
    }
    if OverlayTidy(s) {
      forall g | g in t.sources
        ensures !t.sources[g].OverlayFrame?
      {
        assert t.sources[g].OverlayFrame? ==> IsOverlay(s, g);
      }
    }
  }

  /** Cancelling the progress poll keeps the invariant and leaves none pending. */
  lemma StopPollingInv(s: IndicatorState)
    requires Inv(s)
    ensures var t := StopPolling(s);
            && Inv(t) && t.progressId.None? && (forall h: SourceId :: !IsProgress(t, h))
            && t == s.(sources := t.sources, progressId := None)
            && (forall h :: h in t.sources ==> h in s.sources && t.sources[h] == s.sources[h])
  {
    if s.progressId.Some? {
      var h := s.progressId.value;
      var t := s.(sources := s.sources - {h}, progressId := None);
      assert StopPolling(s) == t;
      forall g: SourceId | IsProgress(t, g)
        ensures false
      {
        assert IsProgress(s, g);
      }
      assert ProgressTimerTracked(t);
      assert SearchTimerTracked(t) by {
        assert forall g: SourceId :: IsSearch(t, g) ==> IsSearch(s, g);
      }
      assert RowTimersTracked(t) by {
        assert forall g: SourceId :: IsRowTimer(t, g) ==> IsRowTimer(s, g);
      }
      assert SpinnerTracked(t) by {
        assert forall g: SourceId :: IsSpinner(t, g) ==> IsSpinner(s, g);
      }
      assert OverlaysTracked(t) by {
        forall k, o | 0 <= k < |t.rows| && o in t.rows[k].overlays
          ensures IsOverlay(t, o)
        {
          assert IsOverlay(s, o);
        }
      }
    } else {
      assert forall g: SourceId :: !IsProgress(s, g);
    }
  }

  // ---------------------------------------------------------------------
  // Behaviour kept as the indicator has it

  /** `destroy` does not stop the player: a playing song plays on. */
  lemma DestroyLeavesPlayerPlaying(s: IndicatorState)
    requires Inv(s) && s.currentPlayer.Some? && s.players[s.currentPlayer.value].state == Playing
    ensures var t := Destroy(s);
            && t.currentPlayer == s.currentPlayer && t.players == s.players
            && t.players[s.currentPlayer.value].state == Playing
  {
    DestroyCancels(s);
  }

  /**
   * Clearing the query does not withdraw a search already sent: when it
   * answers, its results are rendered into the emptied list.
   */
  lemma StaleFetchAfterClear(s: IndicatorState, text: string, results: seq<Song>)
    requires Inv(s) && |s.fetches| > 0 && Text.Trim(text) == ""
    ensures TextChanged(s, text) == ClearQuery(s) && ClearQuery(s).fetches == s.fetches
    ensures var t := FetchSettled(ClearQuery(s), 0, Some(results));
            && t.renderedResults == results && |t.rows| == |results|
  {
    TextChangedEmpty(s, text);
    ClearQueryCancels(s);
    FetchSettledShows(ClearQuery(s), 0, Some(results));
  }

  /**
   * Rendering results that contain the playing song replaces the current
   * overlay by a fresh one without stopping the old animation: it stays
   * pending, no longer current, and `destroy` does not stop it either.
   */
  lemma OverlayLeakOnRerender(s: IndicatorState, results: seq<Song>, k: nat)
    requires Inv(s) && s.currentOverlay.Some?
    requires k < |results| && s.currentPlayingId == Some(results[k].id)
    ensures var t := RenderResults(s, results);
            var o := s.currentOverlay.value;
            && Inv(t)
            && IsOverlay(t, o) && t.currentOverlay != Some(o) && !OverlayTidy(t)
            && IsOverlay(Destroy(t), o)
  {
    var o := s.currentOverlay.value;
    RenderResultsParts(s, results);
    RenderResultsCancels(s, results);
    var t := RenderResults(s, results);
    assert !IsRowTimer(s, o);
    assert IsOverlay(t, o);
    DestroyKeepsStrayOverlay(t, o);
  }

  /** `destroy` stops only the current overlay animation. */
  lemma DestroyKeepsStrayOverlay(s: IndicatorState, o: SourceId)
    requires Inv(s) && IsOverlay(s, o) && s.currentOverlay != Some(o)
    ensures IsOverlay(Destroy(s), o)
  {
    OverlayNotNamed(s, o);
    DestroyKeeps(s, o);
  }

  /** An overlay animation is neither the search timer, the poll, the spinner loop nor a row timer. */
  lemma OverlayNotNamed(s: IndicatorState, o: SourceId)
    requires SearchTimerTracked(s) && ProgressTimerTracked(s) && SpinnerTracked(s) && RowTimersTracked(s)
    requires IsOverlay(s, o)
    ensures o !in Named(s.searchTimeout) && o !in Named(s.progressId) && o !in Named(s.spinLoopId)
    ensures o !in Elems(s.rowTimeouts)
  {
    assert o !in Named(s.searchTimeout) by {
      assert SearchTimerTracked(s);
    }
    assert o !in Named(s.progressId) by {
      assert ProgressTimerTracked(s);
    }
    assert o !in Named(s.spinLoopId) by {
      assert SpinnerTracked(s);
    }
    assert o !in Elems(s.rowTimeouts) by {
      assert RowTimersTracked(s);
      forall j | 0 <= j < |s.rowTimeouts|
        ensures s.rowTimeouts[j] != o
      {
        assert s.rowTimeouts[j] in s.sources ==> IsRowTimer(s, s.rowTimeouts[j]);
      }
    }
  }

  /** A source none of `destroy`'s handles names survives it unchanged. */
  lemma DestroyKeeps(s: IndicatorState, o: SourceId)
    requires o in s.sources
    requires o !in Named(s.searchTimeout) && o !in Named(s.progressId) && o !in Named(s.spinLoopId)
    requires o !in Named(s.currentOverlay) && o !in Elems(s.rowTimeouts)
    ensures o in Destroy(s).sources && Destroy(s).sources[o] == s.sources[o]
  {
    DestroySources(s);
  }

  /** The ids a handle names: none, or the one it holds. */
  function Named(h: Option<SourceId>): set<SourceId> {
    if h.Some? then {h.value} else {}
  }

  /** `destroy` removes exactly the sources its handles and `_rowTimeouts` name. */
  lemma DestroySources(s: IndicatorState)
    ensures Destroy(s).sources
         == s.sources - Named(s.searchTimeout) - Named(s.progressId) - Named(s.spinLoopId)
                      - Named(s.currentOverlay) - Elems(s.rowTimeouts)
  {
    var s1 := CancelSearch(s);
    var s2 := StopPolling(s1);
    var s3 := StopSpinLoop(s2);
    CancelSearchStep(s);
    StopPollingStep(s1);
    StopSpinLoopStep(s2);
    CancelOverlayStep(s3);
  }

  /** Proof step: `CancelSearch` unfolded, for DestroySources. */
  lemma CancelSearchStep(s: IndicatorState)
    ensures var t := CancelSearch(s);
            && t.sources == s.sources - Named(s.searchTimeout) && t.rowTimeouts == s.rowTimeouts
            && t.progressId == s.progressId && t.spinLoopId == s.spinLoopId && t.currentOverlay == s.currentOverlay
  {
  }

  /** Proof step: `StopPolling` unfolded, for DestroySources. */
  lemma StopPollingStep(s: IndicatorState)
    ensures var t := StopPolling(s);
            && t.sources == s.sources - Named(s.progressId) && t.rowTimeouts == s.rowTimeouts
            && t.spinLoopId == s.spinLoopId && t.currentOverlay == s.currentOverlay
  {
  }

  /** Proof step: `StopSpinLoop` unfolded, for DestroySources. */
  lemma StopSpinLoopStep(s: IndicatorState)
    ensures var t := StopSpinLoop(s);
            && t.sources == s.sources - Named(s.spinLoopId) && t.rowTimeouts == s.rowTimeouts
            && t.currentOverlay == s.currentOverlay
  {
  }

  /** Proof step: `CancelOverlay` unfolded, for DestroySources. */
  lemma CancelOverlayStep(s: IndicatorState)
    ensures var t := CancelOverlay(s);
            && t.sources == s.sources - Named(s.currentOverlay) && t.rowTimeouts == s.rowTimeouts
  {
  }
}
