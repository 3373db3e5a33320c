/**
 The reading-prompt decision (`GetReadingPromptState.await`): after a chapter is
 read, decide whether to ask the user to add the manga to the library and/or
 to link it with tracking services, or to stay silent.

 The collaborators the source calls (preferences, manga, chapter and track
 repositories, tracker registry) are one `Environment` value: the snapshot the
 calls would have returned.
 */
module GetReadingPromptState {
  import opened Seqs
  import opened Entities
  import LongParse
  import Wrappers

  /** The outcome: no prompt, or which prompts to show and the tracker split. */
  datatype ReadingPromptState =
    | None
    | ShowPrompt(
        showLibraryPrompt: bool,
        showTrackingPrompt: bool,
        missingTrackers: seq<Tracker>,
        alreadyLinkedTrackers: seq<Tracker>)

  /** The preference values the decision reads. */
  datatype Preferences = Preferences(
    incognitoMode: bool,
    autoAddToLibraryEnabled: bool,
    autoAddToLibraryThreshold: int,
    forcedTrackingEnabled: bool,
    forcedTrackingThreshold: int,
    requiredTrackerIds: set<string>)

  /**
   What the collaborators hold: `mangas` answers `getManga` (an absent key is
   `null`), `chapters` and `tracks` are the rows that the by-manga queries
   select from, `trackers` is the registry in its enumeration order.
   */
  datatype Environment = Environment(
    prefs: Preferences,
    mangas: map<int, Manga>,
    chapters: seq<Chapter>,
    tracks: seq<Track>,
    trackers: seq<Tracker>)

  // ---------------------------------------------------------------------------
  // The intermediate values of the decision
  // ---------------------------------------------------------------------------

  /** Chapters of the manga that are flagged read. */
  function ReadCount(chapters: seq<Chapter>, mangaId: int): (n: nat)
    ensures n == |set i | 0 <= i < |chapters| && chapters[i].mangaId == mangaId && chapters[i].read|
    ensures n <= |chapters|
  {
    var p := (c: Chapter) => c.mangaId == mangaId && c.read;
    CountIsNumberOfPositions(chapters, p);
    assert Positions(chapters, p)
        == set i | 0 <= i < |chapters| && chapters[i].mangaId == mangaId && chapters[i].read;
    Count(chapters, p)
  }

  /** Ids of the trackers the manga is already linked with. */
  function LinkedTrackerIds(tracks: seq<Track>, mangaId: int): (ids: set<int>)
    ensures forall t :: t in tracks && t.mangaId == mangaId ==> t.trackerId in ids
    ensures forall id :: id in ids ==> exists t :: t in tracks && t.mangaId == mangaId && t.trackerId == id
  {
    set t | t in tracks && t.mangaId == mangaId :: t.trackerId
  }

  /** The required-tracker preference, with entries that are not a `Long` dropped. */
  function RequiredTrackerIds(raw: set<string>): (ids: set<int>)
    ensures forall id :: id in ids ==> LongParse.IsLong(id)
    ensures forall s :: s in raw && LongParse.ParseLong(s).Some? ==> LongParse.ParseLong(s).value in ids
    ensures forall id :: id in ids ==> exists s :: s in raw && LongParse.ParseLong(s) == Wrappers.Some(id)
  {
    set s | s in raw && LongParse.ParseLong(s).Some? :: LongParse.ParseLong(s).value
  }

  /** The registry's logged-in trackers, in registry order. */
  function LoggedInTrackers(trackers: seq<Tracker>): (r: seq<Tracker>)
    ensures forall t :: t in r <==> t in trackers && t.isLoggedIn
    ensures IsSubsequence(r, trackers)
  {
    FilterIsSubsequence(trackers, (t: Tracker) => t.isLoggedIn);
    Filter(trackers, (t: Tracker) => t.isLoggedIn)
  }

  /** All logged-in trackers when nothing is required, otherwise the required ones. */
  function TrackersToCheck(loggedIn: seq<Tracker>, required: set<int>): (r: seq<Tracker>)
    ensures forall t :: t in r <==> t in loggedIn && (required == {} || t.id in required)
    ensures IsSubsequence(r, loggedIn)
  {
    if required == {} then
      SubsequenceReflexive(loggedIn);
      loggedIn
    else
      FilterIsSubsequence(loggedIn, (t: Tracker) => t.id in required);
      Filter(loggedIn, (t: Tracker) => t.id in required)
  }

  /** Both tracker filters keep every retained tracker as often as it occurs. */
  lemma TrackerFiltersKeepMultiplicity(trackers: seq<Tracker>, loggedIn: seq<Tracker>, required: set<int>)
    ensures forall t :: multiset(LoggedInTrackers(trackers))[t] == if t.isLoggedIn then multiset(trackers)[t] else 0
    ensures forall t ::
              multiset(TrackersToCheck(loggedIn, required))[t] ==
              if required == {} || t.id in required then multiset(loggedIn)[t] else 0
  {
    FilterMultiplicity(trackers, (t: Tracker) => t.isLoggedIn);
    FilterMultiplicity(loggedIn, (t: Tracker) => t.id in required);
  }

  function CheckedTrackers(env: Environment): seq<Tracker>
  {
    TrackersToCheck(LoggedInTrackers(env.trackers), RequiredTrackerIds(env.prefs.requiredTrackerIds))
  }

  /** The trackers to check that the manga is linked with, in registry order. */
  function AlreadyLinkedTrackers(env: Environment, mangaId: int): (r: seq<Tracker>)
    ensures forall t :: t in r <==> t in CheckedTrackers(env) && t.id in LinkedTrackerIds(env.tracks, mangaId)
    ensures IsSubsequence(r, CheckedTrackers(env))
  {
    var linked := LinkedTrackerIds(env.tracks, mangaId);
    FilterIsSubsequence(CheckedTrackers(env), (t: Tracker) => t.id in linked);
    Filter(CheckedTrackers(env), (t: Tracker) => t.id in linked)
  }

  /** The trackers to check that the manga is not linked with, in registry order. */
  function MissingTrackers(env: Environment, mangaId: int): (r: seq<Tracker>)
    ensures forall t :: t in r <==> t in CheckedTrackers(env) && t.id !in LinkedTrackerIds(env.tracks, mangaId)
    ensures IsSubsequence(r, CheckedTrackers(env))
  {
    var linked := LinkedTrackerIds(env.tracks, mangaId);
    FilterIsSubsequence(CheckedTrackers(env), (t: Tracker) => t.id !in linked);
    Filter(CheckedTrackers(env), (t: Tracker) => t.id !in linked)
  }

  // ---------------------------------------------------------------------------
  // The decision
  // ---------------------------------------------------------------------------

  /** The guard-clause chain of `await`, in the source's order. */
  function Await(env: Environment, mangaId: int, sessionIgnoredIds: set<int>): (r: ReadingPromptState)
    ensures r.ShowPrompt? ==> r.showLibraryPrompt || r.showTrackingPrompt
    ensures r.ShowPrompt? ==> !env.prefs.incognitoMode && mangaId !in sessionIgnoredIds
  {
    var prefs := env.prefs;
    if prefs.incognitoMode then None
    else if !prefs.autoAddToLibraryEnabled && !prefs.forcedTrackingEnabled then None
    else if mangaId in sessionIgnoredIds then None
    else if mangaId !in env.mangas then None
    else
      var manga := env.mangas[mangaId];
      if manga.skipTracking then None
      else
        var readCount := ReadCount(env.chapters, mangaId);
        var inLibrary := manga.favorite;
        var loggedIn := LoggedInTrackers(env.trackers);
        var alreadyLinked := AlreadyLinkedTrackers(env, mangaId);
        var missing := MissingTrackers(env, mangaId);
        var showLibraryPrompt :=
          prefs.autoAddToLibraryEnabled && !inLibrary && readCount >= prefs.autoAddToLibraryThreshold;
        var showTrackingPrompt :=
          prefs.forcedTrackingEnabled && |loggedIn| > 0 && |missing| > 0
          && readCount >= prefs.forcedTrackingThreshold;
        if showLibraryPrompt || showTrackingPrompt then
          ShowPrompt(showLibraryPrompt, showTrackingPrompt, missing, alreadyLinked)
        else
          None
  }

  // ---------------------------------------------------------------------------
  // The same decision stated declaratively, over the raw snapshot
  // ---------------------------------------------------------------------------

  /** One of the conditions under which the source returns before looking at chapters. */
  ghost predicate Suppressed(env: Environment, mangaId: int, sessionIgnoredIds: set<int>)
  {
    || env.prefs.incognitoMode
    || (!env.prefs.autoAddToLibraryEnabled && !env.prefs.forcedTrackingEnabled)
    || mangaId in sessionIgnoredIds
    || mangaId !in env.mangas
    || env.mangas[mangaId].skipTracking
  }

  /** The number of chapter rows of the manga that are flagged read. */
  ghost function ChaptersRead(env: Environment, mangaId: int): nat
  {
    |set i | 0 <= i < |env.chapters| && env.chapters[i].mangaId == mangaId && env.chapters[i].read|
  }

  /** Some track row links the manga with tracker `id`. */
  ghost predicate IsLinked(env: Environment, mangaId: int, id: int)
  {
    exists k :: 0 <= k < |env.tracks| && env.tracks[k].mangaId == mangaId && env.tracks[k].trackerId == id
  }

  /** `s` is an entry of the required-tracker preference that reads as `id`. */
  ghost predicate Names(s: string, id: int)
  {
    LongParse.ParseLong(s) == Wrappers.Some(id)
  }

  /** Some entry of the required-tracker preference reads as `id`. */
  ghost predicate IsRequired(env: Environment, id: int)
  {
    exists s :: s in env.prefs.requiredTrackerIds && Names(s, id)
  }

  /** Nothing in the required-tracker preference reads as a tracker id. */
  ghost predicate NothingRequired(env: Environment)
  {
    forall s :: s in env.prefs.requiredTrackerIds ==> LongParse.ParseLong(s).None?
  }

  /** A registered, logged-in tracker that the configuration asks to check. */
  ghost predicate IsChecked(env: Environment, t: Tracker)
  {
    t in env.trackers && t.isLoggedIn && (NothingRequired(env) || IsRequired(env, t.id))
  }

  ghost predicate LibraryGate(env: Environment, mangaId: int)
  {
    && env.prefs.autoAddToLibraryEnabled
    && mangaId in env.mangas
    && !env.mangas[mangaId].favorite
    && ChaptersRead(env, mangaId) >= env.prefs.autoAddToLibraryThreshold
  }

  ghost predicate TrackingGate(env: Environment, mangaId: int)
  {
    && env.prefs.forcedTrackingEnabled
    && (exists t :: t in env.trackers && t.isLoggedIn)
    && (exists t :: IsChecked(env, t) && !IsLinked(env, mangaId, t.id))
    && ChaptersRead(env, mangaId) >= env.prefs.forcedTrackingThreshold
  }

  // ---------------------------------------------------------------------------
  // Lemmas linking the two
  // ---------------------------------------------------------------------------

  /** The count of `ReadCount`'s contract, named as the declarative decision uses it. */
  lemma ReadCountIsChaptersRead(env: Environment, mangaId: int)
    ensures ReadCount(env.chapters, mangaId) == ChaptersRead(env, mangaId)
  {
  }

  lemma LinkedTrackerIdsSpec(env: Environment, mangaId: int, id: int)
    ensures id in LinkedTrackerIds(env.tracks, mangaId) <==> IsLinked(env, mangaId, id)
  {
  }

  /** Exactly the ids that some entry reads as: non-numeric entries contribute nothing. */
  lemma RequiredTrackerIdsSpec(env: Environment, id: int)
    ensures id in RequiredTrackerIds(env.prefs.requiredTrackerIds) <==> IsRequired(env, id)
    ensures RequiredTrackerIds(env.prefs.requiredTrackerIds) == {} <==> NothingRequired(env)
  {
  }

  /** The trackers to check are the registered, logged-in ones the configuration asks for. */
  lemma CheckedTrackersSpec(env: Environment)
    ensures forall t :: t in CheckedTrackers(env) <==> IsChecked(env, t)
    ensures NothingRequired(env) ==> CheckedTrackers(env) == LoggedInTrackers(env.trackers)
    ensures IsSubsequence(CheckedTrackers(env), LoggedInTrackers(env.trackers))
    ensures IsSubsequence(CheckedTrackers(env), env.trackers)
  {
    var loggedIn := LoggedInTrackers(env.trackers);
    forall id {
      RequiredTrackerIdsSpec(env, id);
    }
    FilterIsSubsequence(env.trackers, (t: Tracker) => t.isLoggedIn);
    SubsequenceTransitive(CheckedTrackers(env), loggedIn, env.trackers);
  }

  /**
   The two tracker lists split the trackers to check: every tracker to check
   is in exactly one of them (with its multiplicity), and the already-linked
   list holds the linked ones.
   */
  lemma TrackerPartition(env: Environment, mangaId: int)
    ensures forall t ::
              multiset(AlreadyLinkedTrackers(env, mangaId))[t] + multiset(MissingTrackers(env, mangaId))[t]
              == multiset(CheckedTrackers(env))[t]
    ensures forall t :: !(t in AlreadyLinkedTrackers(env, mangaId) && t in MissingTrackers(env, mangaId))
    ensures forall t :: t in AlreadyLinkedTrackers(env, mangaId) <==> IsChecked(env, t) && IsLinked(env, mangaId, t.id)
    ensures forall t :: t in MissingTrackers(env, mangaId) <==> IsChecked(env, t) && !IsLinked(env, mangaId, t.id)
  {
    var checked := CheckedTrackers(env);
    var linked := LinkedTrackerIds(env.tracks, mangaId);
    FilterSplit(checked, (t: Tracker) => t.id in linked, (t: Tracker) => t.id !in linked);
    CheckedTrackersSpec(env);
    forall id {
      LinkedTrackerIdsSpec(env, mangaId, id);
    }
  }

  /** Both tracker lists keep the registry's order: they are subsequences of the checked and of the logged-in trackers. */
  lemma TrackerListsKeepOrder(env: Environment, mangaId: int)
    ensures IsSubsequence(AlreadyLinkedTrackers(env, mangaId), CheckedTrackers(env))
    ensures IsSubsequence(MissingTrackers(env, mangaId), CheckedTrackers(env))
    ensures IsSubsequence(AlreadyLinkedTrackers(env, mangaId), LoggedInTrackers(env.trackers))
    ensures IsSubsequence(MissingTrackers(env, mangaId), LoggedInTrackers(env.trackers))
  {
    var checked := CheckedTrackers(env);
    CheckedTrackersSpec(env);
    SubsequenceTransitive(AlreadyLinkedTrackers(env, mangaId), checked, LoggedInTrackers(env.trackers));
    SubsequenceTransitive(MissingTrackers(env, mangaId), checked, LoggedInTrackers(env.trackers));
  }


  /** The split of `TrackerPartition` as one multiset equation. */
  lemma TrackerPartitionMultiset(env: Environment, mangaId: int)
    ensures multiset(AlreadyLinkedTrackers(env, mangaId)) + multiset(MissingTrackers(env, mangaId))
         == multiset(CheckedTrackers(env))
  {
    TrackerPartition(env, mangaId);
  }

  /**
   The tracking gate's "some tracker is logged in" test is implied by its
   "some tracker is missing" test: a missing tracker is a logged-in one.
   */
  lemma LoggedInTestIsImplied(env: Environment, mangaId: int)
    ensures |MissingTrackers(env, mangaId)| > 0 ==> |LoggedInTrackers(env.trackers)| > 0
  {
  }

  /** Each suppressing condition on its own yields no prompt, whatever else holds. */
  lemma SuppressedMeansNone(env: Environment, mangaId: int, sessionIgnoredIds: set<int>)
    requires Suppressed(env, mangaId, sessionIgnoredIds)
    ensures Await(env, mangaId, sessionIgnoredIds) == None
  {
  }

  /**
   The library flag: auto-add on, manga not in the library, and at least the
   threshold of chapters read (inclusive).
   */
  lemma LibraryPromptIff(env: Environment, mangaId: int, sessionIgnoredIds: set<int>)
    requires !Suppressed(env, mangaId, sessionIgnoredIds)
    ensures LibraryGate(env, mangaId) ==> Await(env, mangaId, sessionIgnoredIds).ShowPrompt?
    ensures Await(env, mangaId, sessionIgnoredIds).ShowPrompt? ==>
      (Await(env, mangaId, sessionIgnoredIds).showLibraryPrompt <==> LibraryGate(env, mangaId))
  {
    ReadCountIsChaptersRead(env, mangaId);
  }

  /**
   The tracking flag: forced tracking on, someone logged in, some tracker to
   check not yet linked, and at least the threshold of chapters read.
   */
  lemma TrackingPromptIff(env: Environment, mangaId: int, sessionIgnoredIds: set<int>)
    requires !Suppressed(env, mangaId, sessionIgnoredIds)
    ensures TrackingGate(env, mangaId) ==> Await(env, mangaId, sessionIgnoredIds).ShowPrompt?
    ensures Await(env, mangaId, sessionIgnoredIds).ShowPrompt? ==>
      (Await(env, mangaId, sessionIgnoredIds).showTrackingPrompt <==> TrackingGate(env, mangaId))
  {
    ReadCountIsChaptersRead(env, mangaId);
    TrackerPartition(env, mangaId);
    var loggedIn := LoggedInTrackers(env.trackers);
    assert |loggedIn| > 0 <==> exists t :: t in env.trackers && t.isLoggedIn by {
      if |loggedIn| > 0 {
        assert loggedIn[0] in loggedIn;
      }
    }
    var missing := MissingTrackers(env, mangaId);
    assert |missing| > 0 <==> exists t :: IsChecked(env, t) && !IsLinked(env, mangaId, t.id) by {
      if |missing| > 0 {
        assert missing[0] in missing;
      }
    }
  }

  /**
   A prompt is shown exactly when the chain passes and at least one gate is
   open; it then carries both gates and the full tracker split.
   */
  lemma AwaitDecision(env: Environment, mangaId: int, sessionIgnoredIds: set<int>)
    ensures Await(env, mangaId, sessionIgnoredIds).ShowPrompt?
        <==> !Suppressed(env, mangaId, sessionIgnoredIds) && (LibraryGate(env, mangaId) || TrackingGate(env, mangaId))
    ensures Await(env, mangaId, sessionIgnoredIds).ShowPrompt? ==>
      && Await(env, mangaId, sessionIgnoredIds).showLibraryPrompt == LibraryGate(env, mangaId)
      && Await(env, mangaId, sessionIgnoredIds).showTrackingPrompt == TrackingGate(env, mangaId)
      && Await(env, mangaId, sessionIgnoredIds).missingTrackers == MissingTrackers(env, mangaId)
      && Await(env, mangaId, sessionIgnoredIds).alreadyLinkedTrackers == AlreadyLinkedTrackers(env, mangaId)
  {
    if !Suppressed(env, mangaId, sessionIgnoredIds) {
      LibraryPromptIff(env, mangaId, sessionIgnoredIds);
      TrackingPromptIff(env, mangaId, sessionIgnoredIds);
    }
  }

  // ---------------------------------------------------------------------------
  // The scenarios of the unit tests of `GetReadingPromptState`
  // ---------------------------------------------------------------------------

  /** `total` chapters of manga 1, the first `read` of them flagged read. */
  function TestChapters(total: nat, read: nat): (cs: seq<Chapter>)
    ensures |cs| == total
  {
    if total == 0 then [] else TestChapters(total - 1, read) + [Chapter(total, 1, total <= read)]
  }

  lemma {:induction false} TestChaptersReadCount(total: nat, read: nat)
    ensures ReadCount(TestChapters(total, read), 1) == if read < total then read else total
  {
    if total > 0 {
      TestChaptersReadCount(total - 1, read);
      var cs := TestChapters(total, read);
      assert cs[..|cs| - 1] == TestChapters(total - 1, read);
    }
  }

  /** The test fixture: manga 1 outside the library, auto-add on at 3, tracking off. */
  function TestEnvironment(chapters: seq<Chapter>): Environment
  {
    Environment(
      Preferences(false, true, 3, false, 3, {}),
      map[1 := Manga(1, "", false, false)],
      chapters, [], [])
  }

  /** The library threshold is inclusive: 2 of 5 read stays silent, 3 of 5 prompts. */
  lemma LibraryThresholdBoundary()
    ensures Await(TestEnvironment(TestChapters(5, 2)), 1, {}) == None
    ensures Await(TestEnvironment(TestChapters(5, 3)), 1, {}).ShowPrompt?
    ensures Await(TestEnvironment(TestChapters(5, 3)), 1, {}).showLibraryPrompt
    ensures Await(TestEnvironment(TestChapters(5, 3)), 1, {}).showTrackingPrompt == false
  {
    TestChaptersReadCount(5, 2);
    TestChaptersReadCount(5, 3);
  }

  /** The tracking-test fixture: only forced tracking on, tracker 1 required and logged in. */
  function TrackingEnvironment(threshold: int, chapters: seq<Chapter>, tracks: seq<Track>): Environment
  {
    Environment(
      Preferences(false, false, 3, true, threshold, {"1"}),
      map[1 := Manga(1, "", false, false)],
      chapters, tracks, [Tracker(1, "", true)])
  }

  /** Threshold 0 prompts for tracking with nothing read; the one tracker is missing. */
  lemma TrackingThresholdZero()
    ensures Await(TrackingEnvironment(0, TestChapters(5, 0), []), 1, {})
         == ShowPrompt(false, true, [Tracker(1, "", true)], [])
  {
  }

  /** When every required tracker is already linked there is nothing to prompt for. */
  lemma AllRequiredLinked()
    ensures Await(TrackingEnvironment(3, TestChapters(5, 3), [Track(1, 1, 1)]), 1, {}) == None
  {
  }
}
