# Reading prompt and private keyboard — a Dafny model

This project models the "reading prompt" slice of the Komikku manga reader and
proves properties of it. After the user has read enough chapters of a manga,
the reader offers to add it to the library and/or to link it with tracking
services. The model covers four pure components:

- **`GetReadingPromptState`** (`get_reading_prompt_state.dfy`) is the decision procedure `GetReadingPromptState.await`.
  It is a chain of guard clauses over preferences, the manga record, chapter
  read flags, existing track links and the tracker registry. It returns `None`
  or a `ShowPrompt` with two flags and a split of the trackers to check into
  missing and already-linked ones. The collaborators are one `Environment`
  value holding what their calls would return. The module also states the same
  decision declaratively over the raw snapshot and proves the two agree.
- **`ReadingPromptScreenModel`** (`reading_prompt_screen_model.dfy`) is the
  dialog's screen model. Each event is a pure `State -> State` function:
  toggling trackers and categories, selecting a result, the skip-tracking box,
  starting and retrying searches, and completing a search with the exact-match
  auto-select. `confirm` becomes a `ConfirmPlan`: the library update, the
  tracker registrations and the skip-tracking flag it would write.
- **`GetPrivateKeyboardState`** (`private_keyboard.dfy`) is the
  private-keyboard predicate: the one-shot `await` and the combiners of
  `subscribe`.
- **`TogglePrivateKeyboard`** (`private_keyboard.dfy`) adds an extension to the
  private-keyboard allow-list or removes it.

Supporting modules:

- `Seqs` holds the order-preserving filter, the subsequence relation, the
  multiset split and counting.
- `LongParse` models Kotlin's `toLongOrNull` and proves the round trip with the
  decimal rendering.
- `Text` models `isBlank` and `equals(ignoreCase = true)`.
- `Entities` holds the records.
- `Wrappers` models nullable values as `Option`.

## Model

| member | source | states |
|---|---|---|
| `LongParse.ParseLong` | app/src/main/java/eu/kanade/domain/manga/interactor/GetReadingPromptState.kt:80-82 | A required-tracker entry yields an id only when it is an optionally signed, non-empty run of decimal digits. The id is within the 64-bit `Long` range, and its sign follows the leading character. `NonCanonicalNumerals` and `ParseFormatRoundTrip` fix its value. |
| `LongParse.ParseFormatRoundTrip` | app/src/main/java/eu/kanade/domain/manga/interactor/GetReadingPromptState.kt:80-82 | Every `Long` written in canonical decimal parses back to itself, so no tracker id written that way is dropped. |
| `LongParse.OverflowIsRejected` | app/src/main/java/eu/kanade/domain/manga/interactor/GetReadingPromptState.kt:81 | A digit string outside the `Long` range, with or without `+`, parses to `null` rather than to a wrapped value. So does a `-` numeral below the `Long` minimum. |
| `LongParse.NonCanonicalNumerals` | app/src/main/java/eu/kanade/domain/manga/interactor/GetReadingPromptState.kt:81 | A `+` sign or a leading zero does not change what a numeral parses to, and `-0` is zero. With the round trip, this fixes the parse of every signed numeral. |
| `GetReadingPromptState.ReadCount` | app/src/main/java/eu/kanade/domain/manga/interactor/GetReadingPromptState.kt:69-71 | The count is the number of chapter positions of this manga whose read flag is set, so it never exceeds the number of chapters. |
| `GetReadingPromptState.ReadCountIsChaptersRead` | app/src/main/java/eu/kanade/domain/manga/interactor/GetReadingPromptState.kt:69-71 | The read count equals the number of chapter rows of this manga that are flagged read. |
| `GetReadingPromptState.LinkedTrackerIds` | app/src/main/java/eu/kanade/domain/manga/interactor/GetReadingPromptState.kt:77-78 | Every tracker id named by a track row of this manga is in the set, and every id in the set comes from such a row. |
| `GetReadingPromptState.LinkedTrackerIdsSpec` | app/src/main/java/eu/kanade/domain/manga/interactor/GetReadingPromptState.kt:77-78 | An id is linked exactly when some track row of this manga names that tracker. |
| `GetReadingPromptState.RequiredTrackerIds` | app/src/main/java/eu/kanade/domain/manga/interactor/GetReadingPromptState.kt:80-82 | Every id is a `Long`. Each entry that parses contributes its value, and each id comes from some entry that parses to it. |
| `GetReadingPromptState.RequiredTrackerIdsSpec` | app/src/main/java/eu/kanade/domain/manga/interactor/GetReadingPromptState.kt:80-82 | The required ids are exactly the values that some preference entry parses to, so non-numeric entries contribute nothing. The set is empty exactly when no entry parses. |
| `GetReadingPromptState.LoggedInTrackers` | app/src/main/java/eu/kanade/domain/manga/interactor/GetReadingPromptState.kt:84 | A tracker is listed exactly when it is in the registry and logged in, and the list keeps registry order. |
| `GetReadingPromptState.TrackersToCheck` | app/src/main/java/eu/kanade/domain/manga/interactor/GetReadingPromptState.kt:86-91 | A tracker is checked exactly when it is logged in and either nothing is required or its id is required. The checked list keeps the logged-in order. |
| `GetReadingPromptState.TrackerFiltersKeepMultiplicity` | app/src/main/java/eu/kanade/domain/manga/interactor/GetReadingPromptState.kt:84-91 | The logged-in filter and the required filter keep each retained tracker as often as it occurs in their input, and drop the others entirely. |
| `GetReadingPromptState.CheckedTrackersSpec` | app/src/main/java/eu/kanade/domain/manga/interactor/GetReadingPromptState.kt:80-91 | The checked trackers are the registered, logged-in ones that the configuration asks for. They are all logged-in trackers when no entry parses, and they form a subsequence of the registry. |
| `GetReadingPromptState.AlreadyLinkedTrackers` | app/src/main/java/eu/kanade/domain/manga/interactor/GetReadingPromptState.kt:93 | A tracker is listed exactly when it is checked and its id is linked, in the order of the checked list. |
| `GetReadingPromptState.MissingTrackers` | app/src/main/java/eu/kanade/domain/manga/interactor/GetReadingPromptState.kt:94 | A tracker is listed exactly when it is checked and its id is not linked, in the order of the checked list. |
| `GetReadingPromptState.TrackerPartition` | app/src/main/java/eu/kanade/domain/manga/interactor/GetReadingPromptState.kt:93-94 | The already-linked and missing lists split the checked trackers: each tracker's counts in the two lists add up to its count among the checked trackers. No tracker is in both lists. Membership is "checked and linked" or "checked and not linked". |
| `GetReadingPromptState.TrackerListsKeepOrder` | app/src/main/java/eu/kanade/domain/manga/interactor/GetReadingPromptState.kt:93-94 | Each list is a subsequence of the checked trackers and of the logged-in trackers, so both keep the registry's order. |
| `GetReadingPromptState.TrackerPartitionMultiset` | app/src/main/java/eu/kanade/domain/manga/interactor/GetReadingPromptState.kt:93-94 | The already-linked list and the missing list together make up the checked list as a multiset. |
| `GetReadingPromptState.LoggedInTestIsImplied` | app/src/main/java/eu/kanade/domain/manga/interactor/GetReadingPromptState.kt:113 | A non-empty missing list implies a non-empty logged-in list, so that test in the tracking gate never decides the outcome. |
| `GetReadingPromptState.Await` | app/src/main/java/eu/kanade/domain/manga/interactor/GetReadingPromptState.kt:32-133 | A `ShowPrompt` always has at least one of its flags set, and is never returned in incognito mode or for a session-ignored manga. |
| `GetReadingPromptState.SuppressedMeansNone` | app/src/main/java/eu/kanade/domain/manga/interactor/GetReadingPromptState.kt:36-67 | Any one of these returns `None`, whatever the other inputs are: incognito on, both features off, the manga ignored for the session, the manga absent, or its skip-tracking flag set. |
| `GetReadingPromptState.LibraryPromptIff` | app/src/main/java/eu/kanade/domain/manga/interactor/GetReadingPromptState.kt:101-111 | Past the guards, the library flag is set exactly when auto-add is on, the manga is not a favourite and at least the threshold of chapters is read. The comparison is inclusive, and an open gate always yields a prompt. |
| `GetReadingPromptState.TrackingPromptIff` | app/src/main/java/eu/kanade/domain/manga/interactor/GetReadingPromptState.kt:113-119 | Past the guards, the tracking flag is set exactly when forced tracking is on, some tracker is logged in, some checked tracker is not linked and at least the threshold of chapters is read. |
| `GetReadingPromptState.AwaitDecision` | app/src/main/java/eu/kanade/domain/manga/interactor/GetReadingPromptState.kt:123-132 | A prompt is shown exactly when no guard suppresses it and at least one gate is open. The prompt then carries both gate values and the full tracker split, even when only the library flag is set. |
| `GetReadingPromptState.TestChaptersReadCount` | app/src/test/java/eu/kanade/domain/manga/interactor/GetReadingPromptStateTest.kt:205-213 | The test fixture with `total` chapters, of which the first `read` are read, has min(read, total) chapters read. |
| `GetReadingPromptState.LibraryThresholdBoundary` | app/src/test/java/eu/kanade/domain/manga/interactor/GetReadingPromptStateTest.kt:104-119 | With threshold 3, reading 2 of 5 chapters gives `None`, and reading 3 of 5 gives a library-only prompt. |
| `GetReadingPromptState.TrackingThresholdZero` | app/src/test/java/eu/kanade/domain/manga/interactor/GetReadingPromptStateTest.kt:184-203 | With tracking threshold 0 and nothing read, the required tracker that is logged in but not linked gets a tracking-only prompt, and that tracker is the missing list. |
| `GetReadingPromptState.AllRequiredLinked` | app/src/test/java/eu/kanade/domain/manga/interactor/GetReadingPromptStateTest.kt:149-182 | When the only required tracker is already linked, the result is `None`. |
| `ReadingPromptScreenModel.InitialState` | app/src/main/java/eu/kanade/tachiyomi/ui/reader/ReadingPromptScreenModel.kt:158-166 | The default state has no categories, no selected categories, no enabled trackers, no search states, no selected results, and skip-tracking unchecked. |
| `ReadingPromptScreenModel.InitialSearchTargetsLinkedTrackers` | app/src/main/java/eu/kanade/tachiyomi/ui/reader/ReadingPromptScreenModel.kt:38-45 | The search started on creation, with a non-blank manga title, targets exactly the already-linked trackers, and only their ids get a search state. |
| `ReadingPromptScreenModel.FindTracker` | app/src/main/java/eu/kanade/tachiyomi/ui/reader/ReadingPromptScreenModel.kt:120 | The lookup finds the first tracker in the list with the given id, and `null` exactly when no tracker has that id. |
| `ReadingPromptScreenModel.ToggleTracker` | app/src/main/java/eu/kanade/tachiyomi/ui/reader/ReadingPromptScreenModel.kt:86-96 | An already-linked id leaves the state unchanged. Any other id flips only its own membership in the enabled set, and every other field is unchanged. |
| `ReadingPromptScreenModel.ToggleTrackerTwiceIsIdentity` | app/src/main/java/eu/kanade/tachiyomi/ui/reader/ReadingPromptScreenModel.kt:86-96 | Toggling the same tracker twice restores the original state. |
| `ReadingPromptScreenModel.SelectResult` | app/src/main/java/eu/kanade/tachiyomi/ui/reader/ReadingPromptScreenModel.kt:98-102 | The tracker's selection becomes the given result. Every other tracker's selection and every other field is unchanged. |
| `ReadingPromptScreenModel.ToggleCategory` | app/src/main/java/eu/kanade/tachiyomi/ui/reader/ReadingPromptScreenModel.kt:104-113 | Only that category's membership in the selected set flips, and every other field is unchanged. |
| `ReadingPromptScreenModel.ToggleCategoryTwiceIsIdentity` | app/src/main/java/eu/kanade/tachiyomi/ui/reader/ReadingPromptScreenModel.kt:104-113 | Toggling the same category twice restores the original state. |
| `ReadingPromptScreenModel.SetSkipTracking` | app/src/main/java/eu/kanade/tachiyomi/ui/reader/ReadingPromptScreenModel.kt:115-117 | Only the skip-tracking box changes, and it takes the given value. |
| `ReadingPromptScreenModel.SearchTargets` | app/src/main/java/eu/kanade/tachiyomi/ui/reader/ReadingPromptScreenModel.kt:47-55 | A blank query targets no tracker. Otherwise the targets are exactly the trackers whose id is enabled or already linked, each as often as in the registry and in registry order. |
| `ReadingPromptScreenModel.StartSearches` | app/src/main/java/eu/kanade/tachiyomi/ui/reader/ReadingPromptScreenModel.kt:58-62 | Every started tracker shows `Loading`. No other tracker's search state changes or appears. |
| `ReadingPromptScreenModel.Search` | app/src/main/java/eu/kanade/tachiyomi/ui/reader/ReadingPromptScreenModel.kt:47-55 | A search changes only search states: each target is `Loading`, the others keep their state, and a blank query changes nothing. An id has a search state afterwards exactly when it had one before or it is a target. |
| `ReadingPromptScreenModel.RetrySearch` | app/src/main/java/eu/kanade/tachiyomi/ui/reader/ReadingPromptScreenModel.kt:119-122 | A retry of an unknown tracker is a no-op. A retry of a known tracker puts it back to `Loading`, and no other field changes. Every other tracker keeps its search state, and no search state is added or removed for it. |
| `ReadingPromptScreenModel.ExactMatch` | app/src/main/java/eu/kanade/tachiyomi/ui/reader/ReadingPromptScreenModel.kt:76 | The match is the first result whose title equals the manga title, ignoring case. There is none exactly when no result matches. |
| `Text.EqualsIgnoreCaseIgnoresCase` | app/src/main/java/eu/kanade/tachiyomi/ui/reader/ReadingPromptScreenModel.kt:76 | A title equals its upper-cased form ignoring case, so "One Piece" matches "ONE PIECE". A different length or a different non-letter character is not a match. |
| `ReadingPromptScreenModel.CompleteSearch` | app/src/main/java/eu/kanade/tachiyomi/ui/reader/ReadingPromptScreenModel.kt:71-83 | The outcome is shown for its tracker only. An existing selection is never overwritten. With no selection yet, a success with an exact match selects that match, and otherwise the selections are unchanged. |
| `ReadingPromptScreenModel.LinkedTrackersAlwaysSearched` | app/src/main/java/eu/kanade/tachiyomi/ui/reader/ReadingPromptScreenModel.kt:51-52 | An already-linked tracker is a search target for any non-blank query, whatever tracker was toggled. |
| `ReadingPromptScreenModel.Confirm` | app/src/main/java/eu/kanade/tachiyomi/ui/reader/ReadingPromptScreenModel.kt:124-151 | The library is updated exactly when asked, into the selected categories or category 0 when none is selected. When skip-tracking is checked, nothing is registered and the flag is written. Otherwise exactly the selected results for trackers that are not already linked and are in the list get registered. Each gets its own result, and the tracker is the first one in the list with that id, as the lookup finds it. |
| `ReadingPromptScreenModel.SelectedResultIsRegistered` | app/src/main/java/eu/kanade/tachiyomi/ui/reader/ReadingPromptScreenModel.kt:137-145 | When a result is picked for an existing, unlinked tracker and tracking is not skipped, confirm registers that result. |
| `ReadingPromptScreenModel.LinkedTrackerNeverRegistered` | app/src/main/java/eu/kanade/tachiyomi/ui/reader/ReadingPromptScreenModel.kt:139 | An already-linked tracker is never registered again. |
| `GetPrivateKeyboardState.Await` | app/src/main/java/eu/kanade/domain/source/interactor/GetPrivateKeyboardState.kt:17-23 | Global incognito or the global private keyboard forces `true`. With both off, a missing or unknown source gives `false`, and a known source gives its own incognito or private-keyboard opt-in. |
| `GetPrivateKeyboardState.CombineGlobal` | app/src/main/java/eu/kanade/domain/source/interactor/GetPrivateKeyboardState.kt:26-31 | With no source id the value is on exactly when global incognito or the global private keyboard is on. It agrees with the unknown-source fallback. |
| `GetPrivateKeyboardState.CombineWithSource` | app/src/main/java/eu/kanade/domain/source/interactor/GetPrivateKeyboardState.kt:39-42 | Either global flag turns the value on. An unknown source gives exactly the global flags. With both global flags off, a known source gives exactly its own incognito or private-keyboard opt-in. |
| `GetPrivateKeyboardState.Subscribe` | app/src/main/java/eu/kanade/domain/source/interactor/GetPrivateKeyboardState.kt:25-44 | Either global flag forces `true`. With no source id, or an id with no source, the value is exactly the global flags. A known source adds its own two opt-ins. |
| `GetPrivateKeyboardState.SubscribeAgreesWithAwait` | app/src/main/java/eu/kanade/domain/source/interactor/GetPrivateKeyboardState.kt:25-44 | The combiners of the flow always give the value of a one-shot read, both with no source id and with an unknown or known source. |
| `GetPrivateKeyboardState.AwaitMonotone` | app/src/main/java/eu/kanade/domain/source/interactor/GetPrivateKeyboardState.kt:17-23 | Switching any global or per-source flag on never turns the private keyboard off. |
| `TogglePrivateKeyboard.Await` | app/src/main/java/eu/kanade/domain/source/interactor/TogglePrivateKeyboard.kt:9-13 | Enabling puts the extension in the allow-list and disabling takes it out. Every other entry keeps its membership. |
| `TogglePrivateKeyboard.EnableIsIdempotent` | app/src/main/java/eu/kanade/domain/source/interactor/TogglePrivateKeyboard.kt:11 | Enabling twice is the same as enabling once. |
| `TogglePrivateKeyboard.DisableIsIdempotent` | app/src/main/java/eu/kanade/domain/source/interactor/TogglePrivateKeyboard.kt:11 | Disabling twice is the same as disabling once. |
| `TogglePrivateKeyboard.EnableThenDisable` | app/src/main/java/eu/kanade/domain/source/interactor/TogglePrivateKeyboard.kt:11 | Enabling and then disabling gives the original list without the extension. |
| `TogglePrivateKeyboard.DisableAbsentIsNoOp` | app/src/main/java/eu/kanade/domain/source/interactor/TogglePrivateKeyboard.kt:11 | Disabling an extension that is not listed changes nothing. |

## Left out

- Logging (`logcat`), coroutines, `withIOContext` and `suspend` are left out: the model has no effects.
- The per-tracker search `Job` map with cancel-and-replace is left out. So is the race between the `Loading` update and the result update. A search is modelled as `Search` or `RetrySearch`, then `CompleteSearch` with the outcome given as a value.
- `tracker.search`, `tracker.register`, `updateManga` and `setMangaCategories` are network and database calls. `Confirm` returns the plan of these calls instead of making them. The `false` returned when one of them throws is not modelled.
- `Confirm` gives the categories as a set and the registrations as a map keyed by tracker id. The iteration order of Kotlin's insertion-ordered set and map is not modelled.
- Loading the categories in `init` is left out: it uses the category repository and the `isSystemCategory` filter. The automatic search at start-up is `Search` on the initial state and the manga title.
- `Flow`, `combine`, `changes()` and `distinctUntilChanged` are left out. `Subscribe` is the value the flow carries for one snapshot of the preferences.
- The bodies of `isIncognitoModeEnabled` and `isPrivateKeyboardEnabled` are not part of this model. Each source's two opt-ins are boolean inputs, so the incognito and private-keyboard extension allow-lists do not feed them.
- Atomicity of the preference `getAndSet` in `TogglePrivateKeyboard` is left out. The toggle is a pure function of the allow-list set.
- Unicode is modelled only in part:
  - `isBlank` treats only ASCII whitespace as blank: tab to carriage return, U+001C to U+001F, and space.
  - `equals(ignoreCase = true)` folds only ASCII letters.
  - `toLongOrNull` accepts only ASCII digits, while Kotlin also accepts other Unicode decimal digits.
- The Compose screens are left out because they are rendering only: `MultiTrackerSearch.kt`, `ReadingPromptDialog.kt`, `StorageStep.kt` and `PrivateKeyboardWrapper.kt`. `StorageManagerTest.kt` is left out as well; its `StorageManager` is not part of this model.
- Only the `Track`, `Manga` and `Chapter` fields that the decision reads are kept. The floating-point track fields (score, last chapter read) are dropped.
- The read count is a Kotlin `Int`, and the model treats it as unbounded. This is exact: a Kotlin list holds at most `Int.MAX_VALUE` elements, and `count` throws rather than wrapping, so the count never overflows.
