/**
 The screen model behind the reading-prompt dialog (`ReadingPromptScreenModel`):
 which trackers to search, what the user has toggled and selected, and what
 confirming the dialog will do. Every event is a pure `State -> State`
 transition; the constructor arguments are a fixed `Screen` value, a search
 outcome arrives as an input value, and `confirm` yields a plan of the
 repository and tracker calls it would make.
 */
module ReadingPromptScreenModel {
  import opened Wrappers
  import opened Entities
  import opened Seqs
  import opened Text

  /** What the dialog shows for one tracker's search. */
  datatype TrackerSearchState =
    | Idle
    | Loading
    | Success(results: seq<TrackSearch>)
    | Error(message: string)

  /** The constructor arguments, fixed for the lifetime of the screen. */
  datatype Screen = Screen(
    mangaId: int,
    mangaTitle: string,
    trackers: seq<Tracker>,
    alreadyLinkedTrackerIds: set<int>)

  datatype State = State(
    categories: seq<Category>,
    selectedCategoryIds: set<int>,
    enabledTrackerIds: set<int>,
    searchResults: map<int, TrackerSearchState>,
    selectedResults: map<int, TrackSearch>,
    skipTrackingChecked: bool)

  /** The default `State()`: nothing loaded, selected or enabled, and tracking not skipped. */
  function InitialState(): (s: State)
    ensures s.categories == [] && s.selectedCategoryIds == {} && s.enabledTrackerIds == {}
    ensures s.searchResults == map[] && s.selectedResults == map[]
    ensures !s.skipTrackingChecked
  {
    State([], {}, {}, map[], map[], false)
  }

  /** `trackers.find { it.id == trackerId }`: the first tracker with that id. */
  function FindTracker(trackers: seq<Tracker>, trackerId: int): (r: Option<Tracker>)
    ensures r.Some? ==> r.value in trackers && r.value.id == trackerId
    ensures r.None? <==> forall t :: t in trackers ==> t.id != trackerId
    ensures r.Some? ==> exists i :: 0 <= i < |trackers| && trackers[i] == r.value
                                   && forall j :: 0 <= j < i ==> trackers[j].id != trackerId
  {
    if |trackers| == 0 then None
    else if trackers[0].id == trackerId then Some(trackers[0])
    else
      var r := FindTracker(trackers[1..], trackerId);
      assert r.Some? ==> exists i :: 0 <= i < |trackers| && trackers[i] == r.value
                                     && forall j :: 0 <= j < i ==> trackers[j].id != trackerId by {
        if r.Some? {
          var i :| 0 <= i < |trackers[1..]| && trackers[1..][i] == r.value
                   && forall j :: 0 <= j < i ==> trackers[1..][j].id != trackerId;
          assert trackers[i + 1] == r.value;
        }
      }
      r
  }

  // ---------------------------------------------------------------------------
  // Toggles and setters
  // ---------------------------------------------------------------------------

  /**
   Flips whether a tracker takes part in the search; a tracker the manga is
   already linked with is always searched and cannot be switched off.
   */
  function ToggleTracker(screen: Screen, s: State, trackerId: int): (r: State)
    ensures trackerId in screen.alreadyLinkedTrackerIds ==> r == s
    ensures trackerId !in screen.alreadyLinkedTrackerIds ==>
      && (trackerId in r.enabledTrackerIds <==> trackerId !in s.enabledTrackerIds)
      && r.enabledTrackerIds - {trackerId} == s.enabledTrackerIds - {trackerId}
    ensures r.(enabledTrackerIds := s.enabledTrackerIds) == s
  {
    if trackerId in screen.alreadyLinkedTrackerIds then s
    else if trackerId in s.enabledTrackerIds then s.(enabledTrackerIds := s.enabledTrackerIds - {trackerId})
    else s.(enabledTrackerIds := s.enabledTrackerIds + {trackerId})
  }

  lemma ToggleTrackerTwiceIsIdentity(screen: Screen, s: State, trackerId: int)
    ensures ToggleTracker(screen, ToggleTracker(screen, s, trackerId), trackerId) == s
  {
  }

  /** Records the user's pick for one tracker, replacing any earlier pick for it. */
  function SelectResult(s: State, trackerId: int, result: TrackSearch): (r: State)
    ensures trackerId in r.selectedResults && r.selectedResults[trackerId] == result
    ensures r.selectedResults.Keys == s.selectedResults.Keys + {trackerId}
    ensures forall id :: id in s.selectedResults && id != trackerId ==> r.selectedResults[id] == s.selectedResults[id]
    ensures r.(selectedResults := s.selectedResults) == s
  {
    s.(selectedResults := s.selectedResults[trackerId := result])
  }

  /** Flips whether a category is chosen for the library entry. */
  function ToggleCategory(s: State, categoryId: int): (r: State)
    ensures categoryId in r.selectedCategoryIds <==> categoryId !in s.selectedCategoryIds
    ensures r.selectedCategoryIds - {categoryId} == s.selectedCategoryIds - {categoryId}
    ensures r.(selectedCategoryIds := s.selectedCategoryIds) == s
  {
    if categoryId in s.selectedCategoryIds then s.(selectedCategoryIds := s.selectedCategoryIds - {categoryId})
    else s.(selectedCategoryIds := s.selectedCategoryIds + {categoryId})
  }

  lemma ToggleCategoryTwiceIsIdentity(s: State, categoryId: int)
    ensures ToggleCategory(ToggleCategory(s, categoryId), categoryId) == s
  {
  }

  function SetSkipTracking(s: State, skip: bool): (r: State)
    ensures r.skipTrackingChecked == skip
    ensures r.(skipTrackingChecked := s.skipTrackingChecked) == s
  {
    s.(skipTrackingChecked := skip)
  }

  // ---------------------------------------------------------------------------
  // Searching
  // ---------------------------------------------------------------------------

  /**
   The trackers a search with `query` starts: none for a blank query, otherwise
   the enabled and the already-linked ones, in registry order.
   */
  function SearchTargets(screen: Screen, s: State, query: string): (r: seq<Tracker>)
    ensures IsBlank(query) ==> r == []
    ensures !IsBlank(query) ==> forall t :: t in r <==>
      t in screen.trackers && (t.id in s.enabledTrackerIds || t.id in screen.alreadyLinkedTrackerIds)
    ensures !IsBlank(query) ==>
      forall t :: multiset(r)[t] ==
        if t.id in s.enabledTrackerIds || t.id in screen.alreadyLinkedTrackerIds then multiset(screen.trackers)[t] else 0
    ensures IsSubsequence(r, screen.trackers)
  {
    if IsBlank(query) then
      []
    else
      var enabledIds := s.enabledTrackerIds + screen.alreadyLinkedTrackerIds;
      FilterIsSubsequence(screen.trackers, (t: Tracker) => t.id in enabledIds);
      FilterMultiplicity(screen.trackers, (t: Tracker) => t.id in enabledIds);
      Filter(screen.trackers, (t: Tracker) => t.id in enabledIds)
  }

  /** Every started search first shows its tracker as loading. */
  function StartSearches(results: map<int, TrackerSearchState>, targets: seq<Tracker>)
    : (r: map<int, TrackerSearchState>)
    ensures forall t :: t in targets ==> t.id in r && r[t.id] == Loading
    ensures forall id :: (id in r <==> id in results || exists t :: t in targets && t.id == id)
    ensures forall id :: id in results && (forall t :: t in targets ==> t.id != id) ==> r[id] == results[id]
    decreases |targets|
  {
    if |targets| == 0 then results
    else
      var rest := StartSearches(results[targets[0].id := Loading], targets[1..]);
      assert forall t :: t in targets[1..] ==> t in targets;
      assert forall t :: t in targets ==> t == targets[0] || t in targets[1..];
      rest
  }

  /** `search()`: starts one search per target; nothing else in the state changes. */
  function Search(screen: Screen, s: State, query: string): (r: State)
    ensures r.(searchResults := s.searchResults) == s
    ensures IsBlank(query) ==> r == s
    ensures forall t :: t in SearchTargets(screen, s, query) ==>
      t.id in r.searchResults && r.searchResults[t.id] == Loading
    ensures forall id :: id in s.searchResults && (forall t :: t in SearchTargets(screen, s, query) ==> t.id != id) ==>
      id in r.searchResults && r.searchResults[id] == s.searchResults[id]
    ensures forall id :: id in r.searchResults <==>
      id in s.searchResults || exists t :: t in SearchTargets(screen, s, query) && t.id == id
  {
    s.(searchResults := StartSearches(s.searchResults, SearchTargets(screen, s, query)))
  }

  /** `retrySearch(trackerId)`: searches again on that one tracker, if it exists. */
  function RetrySearch(screen: Screen, s: State, trackerId: int): (r: State)
    ensures r.(searchResults := s.searchResults) == s
    ensures (forall t :: t in screen.trackers ==> t.id != trackerId) ==> r == s
    ensures (exists t :: t in screen.trackers && t.id == trackerId) ==>
      trackerId in r.searchResults && r.searchResults[trackerId] == Loading
    ensures forall id :: id != trackerId ==>
      && (id in r.searchResults <==> id in s.searchResults)
      && (id in s.searchResults ==> r.searchResults[id] == s.searchResults[id])
  {
    match FindTracker(screen.trackers, trackerId)
    case None => s
    case Some(t) => s.(searchResults := StartSearches(s.searchResults, [t]))
  }

  /** The first result whose title equals the manga title, ignoring case. */
  function ExactMatch(results: seq<TrackSearch>, title: string): (r: Option<TrackSearch>)
    ensures r.None? <==> forall x :: x in results ==> !EqualsIgnoreCase(x.title, title)
    ensures r.Some? ==> exists i :: 0 <= i < |results| && results[i] == r.value
                                   && EqualsIgnoreCase(r.value.title, title)
                                   && forall j :: 0 <= j < i ==> !EqualsIgnoreCase(results[j].title, title)
  {
    if |results| == 0 then None
    else if EqualsIgnoreCase(results[0].title, title) then Some(results[0])
    else
      var r := ExactMatch(results[1..], title);
      assert r.Some? ==> exists i :: 0 <= i < |results| && results[i] == r.value
                                     && EqualsIgnoreCase(r.value.title, title)
                                     && forall j :: 0 <= j < i ==> !EqualsIgnoreCase(results[j].title, title) by {
        if r.Some? {
          var i :| 0 <= i < |results[1..]| && results[1..][i] == r.value
                   && EqualsIgnoreCase(r.value.title, title)
                   && forall j :: 0 <= j < i ==> !EqualsIgnoreCase(results[1..][j].title, title);
          assert results[i + 1] == r.value;
        }
      }
      assert forall x :: x in results ==> x == results[0] || x in results[1..];
      r
  }

  /**
   A search on `tracker` finished with `outcome`: it is shown, and on success
   an exact title match becomes the selection, unless the user already picked
   something for that tracker.
   */
  function CompleteSearch(screen: Screen, s: State, tracker: Tracker, outcome: TrackerSearchState): (r: State)
    ensures tracker.id in r.searchResults && r.searchResults[tracker.id] == outcome
    ensures forall id :: id != tracker.id ==>
      (id in r.searchResults <==> id in s.searchResults)
      && (id in s.searchResults ==> r.searchResults[id] == s.searchResults[id])
    ensures tracker.id in s.selectedResults ==> r.selectedResults == s.selectedResults
    ensures tracker.id !in s.selectedResults && outcome.Success?
            && ExactMatch(outcome.results, screen.mangaTitle).Some? ==>
      r.selectedResults == s.selectedResults[tracker.id := ExactMatch(outcome.results, screen.mangaTitle).value]
    ensures !outcome.Success? || ExactMatch(outcome.results, screen.mangaTitle).None? ==>
      r.selectedResults == s.selectedResults
    ensures r.(searchResults := s.searchResults, selectedResults := s.selectedResults) == s
  {
    var shown := s.(searchResults := s.searchResults[tracker.id := outcome]);
    if outcome.Success? then
      var exactMatch := ExactMatch(outcome.results, screen.mangaTitle);
      if exactMatch.Some? && tracker.id !in shown.selectedResults then
        shown.(selectedResults := shown.selectedResults[tracker.id := exactMatch.value])
      else
        shown
    else
      shown
  }

  /**
   The search the screen starts on creation, with the manga title as query:
   since nothing is enabled yet, it targets exactly the linked trackers, and
   only they are shown as loading.
   */
  lemma InitialSearchTargetsLinkedTrackers(screen: Screen)
    requires !IsBlank(screen.mangaTitle)
    ensures forall t :: t in SearchTargets(screen, InitialState(), screen.mangaTitle) <==>
      t in screen.trackers && t.id in screen.alreadyLinkedTrackerIds
    ensures forall id :: id in Search(screen, InitialState(), screen.mangaTitle).searchResults <==>
      exists t :: t in screen.trackers && t.id in screen.alreadyLinkedTrackerIds && t.id == id
  {
  }

  /** A linked tracker is searched whatever the toggles say. */
  lemma LinkedTrackersAlwaysSearched(screen: Screen, s: State, query: string, toggled: int, t: Tracker)
    requires !IsBlank(query)
    requires t in screen.trackers && t.id in screen.alreadyLinkedTrackerIds
    ensures t in SearchTargets(screen, ToggleTracker(screen, s, toggled), query)
  {
  }

  // ---------------------------------------------------------------------------
  // Confirming
  // ---------------------------------------------------------------------------

  /** `tracker.register(result, mangaId)` for one selected result. */
  datatype Registration = Registration(tracker: Tracker, result: TrackSearch)

  /**
   What `confirm` would do: `library` is `Some(categoryIds)` when the manga is
   marked favourite and put into those categories, `registrations` the tracker
   registrations by tracker id, `markSkipTracking` whether the manga's
   skip-tracking flag is set.
   */
  datatype ConfirmPlan = ConfirmPlan(
    library: Option<set<int>>,
    registrations: map<int, Registration>,
    markSkipTracking: bool)

  /** Category 0 is the default category, used when the user picked none. */
  const DEFAULT_CATEGORY_ID: int := 0

  function Confirm(screen: Screen, s: State, addToLibrary: bool): (p: ConfirmPlan)
    ensures p.library.Some? <==> addToLibrary
    ensures p.library.Some? && s.selectedCategoryIds != {} ==> p.library.value == s.selectedCategoryIds
    ensures p.library.Some? && s.selectedCategoryIds == {} ==> p.library.value == {DEFAULT_CATEGORY_ID}
    ensures p.markSkipTracking == s.skipTrackingChecked
    ensures s.skipTrackingChecked ==> p.registrations == map[]
    ensures !s.skipTrackingChecked ==> forall id :: id in p.registrations <==>
      && id in s.selectedResults
      && id !in screen.alreadyLinkedTrackerIds
      && exists t :: t in screen.trackers && t.id == id
    ensures forall id :: id in p.registrations ==>
      && p.registrations[id].result == s.selectedResults[id]
      && p.registrations[id].tracker in screen.trackers
      && p.registrations[id].tracker.id == id
    ensures forall id :: id in p.registrations ==> FindTracker(screen.trackers, id) == Some(p.registrations[id].tracker)
    ensures forall id :: id in p.registrations ==>
      exists i :: 0 <= i < |screen.trackers| && screen.trackers[i] == p.registrations[id].tracker
                  && forall j :: 0 <= j < i ==> screen.trackers[j].id != id
  {
    var library :=
      if addToLibrary then
        Some(if s.selectedCategoryIds == {} then {DEFAULT_CATEGORY_ID} else s.selectedCategoryIds)
      else
        None;
    var registrations :=
      if s.skipTrackingChecked then
        map[]
      else
        map id | id in s.selectedResults
                 && id !in screen.alreadyLinkedTrackerIds
                 && FindTracker(screen.trackers, id).Some?
          :: Registration(FindTracker(screen.trackers, id).value, s.selectedResults[id]);
    ConfirmPlan(library, registrations, s.skipTrackingChecked)
  }

  /**
   Picking a result for a tracker that exists and is not yet linked gets it
   registered on confirm, unless tracking is skipped.
   */
  lemma SelectedResultIsRegistered(screen: Screen, s: State, t: Tracker, result: TrackSearch, addToLibrary: bool)
    requires t in screen.trackers && t.id !in screen.alreadyLinkedTrackerIds
    requires !s.skipTrackingChecked
    ensures t.id in Confirm(screen, SelectResult(s, t.id, result), addToLibrary).registrations
    ensures Confirm(screen, SelectResult(s, t.id, result), addToLibrary).registrations[t.id].result == result
  {
  }

  /** An already-linked tracker is never registered again, whatever was selected. */
  lemma LinkedTrackerNeverRegistered(screen: Screen, s: State, addToLibrary: bool, id: int)
    requires id in screen.alreadyLinkedTrackerIds
    ensures id !in Confirm(screen, s, addToLibrary).registrations
  {
  }
}
