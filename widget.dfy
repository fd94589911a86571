/** The search-and-preview component: its data fields and the methods that
    update them. The audio element is represented by the four fields it is
    given (source, volume, loop flag, paused); the outcome of its `play()`
    promise is the parameter `ok`; the progress interval is the flag
    `timerActive`, so at most one timer exists by construction. */
module Widget {
  import opened Catalog
  import opened ResultView
  import opened Lists
  import opened Playback

  class App {
    // result pipeline
    var searchResults: seq<Item>
    var originalResults: seq<Item>
    var availableGenres: set<string>
    var activeGenres: set<string>
    var sortOption: string
    var searchHistory: seq<string>
    var favorites: seq<Item>

    // playback session
    var currentTrack: Option<Item>
    var isPlaying: bool
    var isRepeatOn: bool
    /** Elapsed ticks of the current preview; the percentage shown is
        `progress * 100 / Duration`. */
    var progress: nat
    var volume: int
    /** `progressInterval` is set. */
    var timerActive: bool

    // the audio element
    var audioSrc: string
    var audioVolume: int
    var audioLoop: bool
    var audioPaused: bool

    /** The component's invariant: the original results are the copy taken
        with the results, the genre selection is well formed, the device loops
        exactly when repeat is on, a timer runs only for a loaded item, and
        only an item with a preview is ever loaded (every caller of
        `playTrack` checks the preview first or passes the current track). */
    ghost predicate Valid()
      reads this
    {
      && originalResults == searchResults
      && WellFormedSelection(activeGenres)
      && audioLoop == isRepeatOn
      && (timerActive ==> currentTrack.Some?)
      && (currentTrack.Some? ==> HasPreview(currentTrack.value))
    }

    /** `data()`: the initial state, with the favorites and the history read
        back from the persistent store. */
    constructor(storedFavorites: seq<Item>, storedHistory: seq<string>)
      ensures Valid()
      ensures searchResults == [] && availableGenres == {} && activeGenres == {All}
      ensures sortOption == "original" && favorites == storedFavorites && searchHistory == storedHistory
      ensures currentTrack == None && !isPlaying && !isRepeatOn && progress == 0 && volume == 70
      ensures !timerActive && audioPaused
    {
      searchResults, originalResults := [], [];
      availableGenres, activeGenres := {}, {All};
      sortOption := "original";
      searchHistory, favorites := storedHistory, storedFavorites;
      currentTrack, isPlaying, isRepeatOn := None, false, false;
      progress, volume, timerActive := 0, 70, false;
      audioSrc, audioVolume, audioLoop, audioPaused := "", 100, false, true;
    }

    /** `filteredResults`. */
    function FilteredResults(): (r: seq<Item>)
      reads this`searchResults, this`originalResults, this`availableGenres
      reads this`activeGenres, this`sortOption
      ensures |r| <= |searchResults|
      ensures Unfiltered(availableGenres, activeGenres) ==> |r| == |searchResults|
    {
      ViewLength(searchResults, originalResults, availableGenres, activeGenres, sortOption);
      View(searchResults, originalResults, availableGenres, activeGenres, sortOption)
    }

    /** `topFiveHistory`. */
    function TopFiveHistory(): (r: seq<string>)
      reads this`searchHistory
      ensures |r| == if |searchHistory| < 5 then |searchHistory| else 5
      ensures r == searchHistory[..|r|]
    {
      TopFive(searchHistory)
    }

    // ------------------------------------------------------------- searching

    /** `searchArtists`, with the catalog's answer as a parameter: None when
        the request fails, otherwise the result list (empty when the response
        carries none). */
    method SearchArtists(query: string, response: Option<seq<Item>>)
      requires Valid()
      modifies this`searchResults, this`originalResults, this`availableGenres
      modifies this`activeGenres, this`sortOption, this`searchHistory
      ensures Valid()
      ensures IsBlank(query) ==>
        && searchResults == [] && availableGenres == {}
        && activeGenres == old(activeGenres) && sortOption == old(sortOption)
        && searchHistory == old(searchHistory)
      ensures !IsBlank(query) ==>
        && searchHistory == Promoted(old(searchHistory), query)
        && activeGenres == {All} && sortOption == "original"
      ensures !IsBlank(query) && response.Some? ==>
        searchResults == response.value && availableGenres == GenreFacet(response.value)
      ensures !IsBlank(query) && response.None? ==>
        searchResults == [] && availableGenres == old(availableGenres)
    {
      if IsBlank(query) {
        searchResults := [];
        originalResults := [];
        availableGenres := {};
        return;
      }
      UpdateSearchHistory(query);
      searchResults := [];
      originalResults := [];
      activeGenres := {All};
      sortOption := "original";
      match response {
        case Some(results) =>
          searchResults := results;
          originalResults := searchResults;
          ExtractGenres(searchResults);
        case None =>
          searchResults := [];
          originalResults := [];
      }
    }

    /** `updateSearchHistory`: the query moves to the front, not duplicated. */
    method UpdateSearchHistory(query: string)
      requires Valid()
      modifies this`searchHistory
      ensures Valid()
      ensures searchHistory == Promoted(old(searchHistory), query)
    {
      var index := IndexOf(searchHistory, query);
      if index != -1 {
        searchHistory := searchHistory[..index] + searchHistory[index + 1..];
      }
      searchHistory := [query] + searchHistory;
    }

    /** `deleteHistory`. */
    method DeleteHistory(index: int)
      requires Valid()
      modifies this`searchHistory
      ensures Valid()
      ensures searchHistory == Splice1(old(searchHistory), index)
    {
      searchHistory := Splice1(searchHistory, index);
    }

    /** `extractGenres`: collects the genres one result at a time. */
    method ExtractGenres(results: seq<Item>)
      requires Valid()
      modifies this`availableGenres
      ensures Valid()
      ensures availableGenres == GenreFacet(results)
    {
      var genres: set<string> := {};
      for i := 0 to |results|
        invariant genres == GenreFacet(results[..i])
      {
        assert results[..i + 1] == results[..i] + [results[i]];
        if results[i].primaryGenreName != "" {
          genres := genres + {results[i].primaryGenreName};
        }
      }
      assert results[..|results|] == results;
      availableGenres := genres;
    }

    /** `toggleGenre`: works on a copy of the selection and stores it back. */
    method ToggleGenre(genre: string)
      requires Valid()
      modifies this`activeGenres
      ensures Valid()
      ensures activeGenres == ToggledGenres(old(activeGenres), genre)
    {
      if genre == All {
        activeGenres := {All};
      } else {
        var updated := activeGenres - {All};
        if genre in updated {
          updated := updated - {genre};
          if updated == {} {
            updated := updated + {All};
          }
        } else {
          updated := updated + {genre};
        }
        activeGenres := updated;
      }
    }

    /** `setSortOption`. */
    method SetSortOption(option: string)
      requires Valid()
      modifies this`sortOption
      ensures Valid()
      ensures sortOption == option
    {
      sortOption := option;
    }

    // ------------------------------------------------------------- favorites

    /** `toggleFavorite`. */
    method ToggleFavorite(item: Item)
      requires Valid()
      modifies this`favorites
      ensures Valid()
      ensures favorites == ToggledFavorites(old(favorites), item)
    {
      var index := FindMatch(favorites, item);
      if index >= 0 {
        favorites := favorites[..index] + favorites[index + 1..];
      } else {
        favorites := favorites + [item];
      }
    }

    /** `removeFavorite`. */
    method RemoveFavorite(index: int)
      requires Valid()
      modifies this`favorites
      ensures Valid()
      ensures favorites == Splice1(old(favorites), index)
    {
      favorites := Splice1(favorites, index);
    }

    // -------------------------------------------------------------- playback

    /** No playback field has changed, the progress aside. */
    twostate predicate Untouched()
      reads this
    {
      && currentTrack == old(currentTrack) && isPlaying == old(isPlaying)
      && timerActive == old(timerActive) && audioSrc == old(audioSrc)
      && audioVolume == old(audioVolume) && audioPaused == old(audioPaused)
    }

    /** The state `playTrack(track)` leaves, the progress having been `from`
        when it was called. A null track makes `track.previewUrl` throw after
        the device was paused, the timer cleared and the current track
        cleared; the event handler swallows the error. Otherwise the item is
        loaded and, when the device starts, playing with a fresh timer; when
        the device refuses, the item stays loaded, the device paused, and
        `isPlaying` keeps its old value. */
    twostate predicate Played(track: Option<Item>, ok: bool, from: nat)
      reads this
    {
      match track
      case None =>
        && currentTrack == None && audioPaused && !timerActive
        && isPlaying == old(isPlaying) && progress == from
        && audioSrc == old(audioSrc) && audioVolume == old(audioVolume)
      case Some(t) =>
        && currentTrack == Some(t) && audioSrc == t.previewUrl && audioVolume == volume
        && audioPaused == !ok && timerActive == ok && isPlaying == (ok || old(isPlaying))
        && progress == (if ok then 0 else from)
    }

    /** `playTrack`. */
    method PlayTrack(track: Option<Item>, ok: bool)
      requires Valid()
      requires track.Some? ==> HasPreview(track.value)
      modifies this`currentTrack, this`audioSrc, this`audioVolume, this`audioLoop
      modifies this`audioPaused, this`isPlaying, this`timerActive, this`progress
      ensures Valid()
      ensures Played(track, ok, old(progress))
    {
      audioPaused := true;
      timerActive := false;
      currentTrack := track;
      if track.None? {
        return;
      }
      audioSrc := track.value.previewUrl;
      audioVolume := volume;
      audioLoop := isRepeatOn;
      if ok {
        audioPaused := false;
        isPlaying := true;
        StartProgress();
      }
    }

    /** `startProgress`: clears any timer, resets the progress, and arms one
        timer. */
    method StartProgress()
      requires Valid() && currentTrack.Some?
      modifies this`timerActive, this`progress
      ensures Valid()
      ensures timerActive && progress == 0
    {
      timerActive := false;
      progress := 0;
      timerActive := true;
    }

    /** The effect of `togglePlay`: nothing without a current track, otherwise
        the flag flips and the device is paused or asked to resume; the timer
        is left alone. */
    twostate predicate Toggled(ok: bool)
      reads this
    {
      && currentTrack == old(currentTrack) && timerActive == old(timerActive)
      && audioSrc == old(audioSrc) && audioVolume == old(audioVolume)
      && progress == old(progress)
      && (old(currentTrack).None? ==> isPlaying == old(isPlaying) && audioPaused == old(audioPaused))
      && (old(currentTrack).Some? ==>
            isPlaying == !old(isPlaying) && audioPaused == (old(isPlaying) || !ok))
    }

    /** `togglePlay`. */
    method TogglePlay(ok: bool)
      requires Valid()
      modifies this`isPlaying, this`audioPaused
      ensures Valid()
      ensures Toggled(ok)
    {
      if currentTrack.None? {
        return;
      }
      if isPlaying {
        audioPaused := true;
      } else {
        audioPaused := !ok;
      }
      isPlaying := !isPlaying;
    }

    /** `toggleRepeat`: flips the flag and hands it to the device at once. */
    method ToggleRepeat()
      requires Valid()
      modifies this`isRepeatOn, this`audioLoop
      ensures Valid()
      ensures isRepeatOn == !old(isRepeatOn)
    {
      isRepeatOn := !isRepeatOn;
      audioLoop := isRepeatOn;
    }

    /** `handleCardPlayback` and `handleFavoritePlayback`: an item without a
        preview is refused with a notice; the current item is paused or
        resumed; any other item is played. */
    method HandlePlayback(track: Item, ok: bool)
      requires Valid()
      modifies this`currentTrack, this`audioSrc, this`audioVolume, this`audioLoop
      modifies this`audioPaused, this`isPlaying, this`timerActive, this`progress
      ensures Valid()
      ensures !HasPreview(track) ==> Untouched() && progress == old(progress)
      ensures HasPreview(track) && IsCurrent(old(currentTrack), track) ==> Toggled(ok)
      ensures HasPreview(track) && !IsCurrent(old(currentTrack), track) ==>
        Played(Some(track), ok, old(progress))
    {
      if !HasPreview(track) {
        return;
      }
      if IsCurrent(currentTrack, track) {
        TogglePlay(ok);
      } else {
        PlayTrack(Some(track), ok);
      }
    }

    /** What `nextTrack` does to a non-empty view: with repeat on it replays
        the current track; otherwise it plays the first item with a preview
        after the current one, or, when the view has none, only resets the
        progress. */
    twostate predicate Advanced(view: seq<Item>, ok: bool)
      requires |view| > 0
      reads this
    {
      if isRepeatOn then Played(old(currentTrack), ok, 0)
      else
        match NextPlayable(view, CurrentIndex(view, old(currentTrack)))
        case Some(i) => Played(Some(view[i]), ok, 0)
        case None => Untouched() && progress == 0
    }

    /** `nextTrack`, with the skip over items without a preview bounded to one
        lap of the view. */
    method NextTrack(ok: bool)
      requires Valid()
      modifies this`currentTrack, this`audioSrc, this`audioVolume, this`audioLoop
      modifies this`audioPaused, this`isPlaying, this`timerActive, this`progress
      ensures Valid()
      ensures |old(FilteredResults())| == 0 ==> Untouched() && progress == old(progress)
      ensures |old(FilteredResults())| > 0 ==> Advanced(old(FilteredResults()), ok)
      ensures currentTrack.Some? ==> HasPreview(currentTrack.value)
    {
      var view := FilteredResults();
      if |view| == 0 {
        return;
      }
      AdvanceIn(view, ok);
    }

    /** The non-empty case of `nextTrack`, on the view it computed. */
    method AdvanceIn(view: seq<Item>, ok: bool)
      requires Valid() && |view| > 0
      modifies this`currentTrack, this`audioSrc, this`audioVolume, this`audioLoop
      modifies this`audioPaused, this`isPlaying, this`timerActive, this`progress
      ensures Valid()
      ensures Advanced(view, ok)
      ensures currentTrack.Some? ==> HasPreview(currentTrack.value)
    {
      progress := 0;
      if isRepeatOn {
        PlayTrack(currentTrack, ok);
      } else {
        var found := ScanNext(view, currentTrack);
        if found.Some? {
          PlayTrack(Some(view[found.value]), ok);
        }
      }
    }

    /** `prevTrack`: restarts the current track from the beginning. */
    method PrevTrack(ok: bool)
      requires Valid()
      modifies this`currentTrack, this`audioSrc, this`audioVolume, this`audioLoop
      modifies this`audioPaused, this`isPlaying, this`timerActive, this`progress
      ensures Valid()
      ensures Played(old(currentTrack), ok, 0)
    {
      progress := 0;
      PlayTrack(currentTrack, ok);
    }

    /** What `shuffle` does to a non-empty view: it plays the first drawn item
        with a preview, or, when none of the ten draws has one, changes
        nothing. */
    twostate predicate Shuffled(view: seq<Item>, draws: seq<nat>, ok: bool)
      requires ValidDraws(view, draws)
      reads this
    {
      match FirstPlayableDraw(view, draws, 0)
      case Some(i) => Played(Some(view[i]), ok, old(progress))
      case None => Untouched() && progress == old(progress)
    }

    /** `shuffle`, with `draws` standing for the successive values of
        `Math.floor(Math.random() * length)`. */
    method Shuffle(draws: seq<nat>, ok: bool)
      requires Valid()
      requires |FilteredResults()| > 0 ==> ValidDraws(FilteredResults(), draws)
      modifies this`currentTrack, this`audioSrc, this`audioVolume, this`audioLoop
      modifies this`audioPaused, this`isPlaying, this`timerActive, this`progress
      ensures Valid()
      ensures |old(FilteredResults())| == 0 ==> Untouched() && progress == old(progress)
      ensures |old(FilteredResults())| > 0 ==> Shuffled(old(FilteredResults()), draws, ok)
      ensures currentTrack.Some? ==> HasPreview(currentTrack.value)
    {
      var view := FilteredResults();
      if |view| > 0 {
        ShuffleIn(view, draws, ok);
      }
    }

    /** The non-empty case of `shuffle`, on the view it computed. */
    method ShuffleIn(view: seq<Item>, draws: seq<nat>, ok: bool)
      requires Valid() && |view| > 0 && ValidDraws(view, draws)
      modifies this`currentTrack, this`audioSrc, this`audioVolume, this`audioLoop
      modifies this`audioPaused, this`isPlaying, this`timerActive, this`progress
      ensures Valid()
      ensures Shuffled(view, draws, ok)
      ensures currentTrack.Some? ==> HasPreview(currentTrack.value)
    {
      var index, attempts := PickShuffle(view, draws);
      if HasPreview(view[index]) {
        PlayTrack(Some(view[index]), ok);
      }
    }

    /** One firing of the progress interval: one more tick; at the end of the
        preview, restart it (repeat on) or move to the next item. */
    method Tick(ok: bool)
      requires Valid() && timerActive
      modifies this`currentTrack, this`audioSrc, this`audioVolume, this`audioLoop
      modifies this`audioPaused, this`isPlaying, this`timerActive, this`progress
      ensures Valid()
      ensures old(progress) + 1 < Duration ==> Untouched() && progress == old(progress) + 1
      ensures old(progress) + 1 >= Duration && isRepeatOn ==>
        && progress == 0 && audioPaused == !ok
        && currentTrack == old(currentTrack) && isPlaying == old(isPlaying)
        && timerActive && audioSrc == old(audioSrc) && audioVolume == old(audioVolume)
      ensures old(progress) + 1 >= Duration && !isRepeatOn && |old(FilteredResults())| == 0 ==>
        Untouched() && progress == old(progress) + 1
      ensures old(progress) + 1 >= Duration && !isRepeatOn && |old(FilteredResults())| > 0 ==>
        Advanced(old(FilteredResults()), ok)
    {
      if progress + 1 < Duration {
        progress := progress + 1;
      } else if isRepeatOn {
        progress := 0;
        audioPaused := !ok;
      } else {
        // `nextTrack` does not read the progress, so incrementing it after
        // the call, where the call left it alone, is the same as before.
        var empty := |FilteredResults()| == 0;
        NextTrack(ok);
        if empty {
          progress := progress + 1;
        }
      }
    }

    /** `stopPlayback`. */
    method StopPlayback()
      requires Valid()
      modifies this`audioPaused, this`isPlaying, this`timerActive, this`currentTrack, this`progress
      ensures Valid()
      ensures currentTrack == None && !isPlaying && progress == 0
      ensures !timerActive && audioPaused
    {
      audioPaused := true;
      isPlaying := false;
      timerActive := false;
      currentTrack := None;
      progress := 0;
    }

    /** The device's `ended` event: without repeat, playback stops and the
        timer is cleared, but the item and the progress stay. */
    method Ended()
      requires Valid()
      modifies this`isPlaying, this`timerActive
      ensures Valid()
      ensures !isRepeatOn ==> !isPlaying && !timerActive
      ensures isRepeatOn ==> isPlaying == old(isPlaying) && timerActive == old(timerActive)
    {
      if !isRepeatOn {
        isPlaying := false;
        timerActive := false;
      }
    }
  }
}
