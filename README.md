# AnkiMate core in Dafny

AnkiMate is a SwiftUI flashcard app. This project models the logic behind its
three screens, plus the records they work on:

- **The study screen.** A variant of the SM-2 spaced-repetition scheduler turns a
  recall rating of 0 to 5 into a new easiness factor, repetition count, interval
  and review date. Around it sits the session state machine (start, reveal,
  rate and move on, restart) over a snapshot of the cards that are due.
- **The add/edit form.** A typed tag name is normalised (trimmed, lower-cased,
  with a `#` marker in front). An existing tag with that name is then reused, or
  one new tag is created. Tags are toggled in and out of the selection. The tag
  row is filtered by the typed text, with selected tags first. Saving either
  updates the card being edited or inserts a new card.
- **The card list.** Up to three optional filters (not remembered, has the
  selected tag, mentions the search text) are applied in order. The tag menu is
  sorted by name. Tapping a tag chip selects or deselects it, and a swipe deletes
  a card.
- **The records.** `Flashcard` and `Tag` are reference classes. An in-memory
  `Store` stands for the SwiftData model context: it holds the cards and the
  tags in insertion order, with unique ids as its invariant.

The files:

- `flashcard.dfy` (module `Cards`) holds the records and the store.
- `study.dfy` (`Study`), `add_flashcard.dfy` (`AddFlashcard`) and `card_list.dfy`
  (`CardList`) hold one screen each.
- `card_filter.dfy` (`CardFilter`) holds the filter steps shared by the study and
  list screens.
- `text.dfy` (`Text`) holds trimming, lower-casing, substring search and name order.
- `seqs.dfy` (`Seqs`) holds subsequences and removal from a sequence.

Conventions of the model:

- The easiness factor is an integer in hundredths: 250 stands for 2.5, and the
  floor 1.3 is 130. The per-quality changes are exact in hundredths, so the
  scheduler is integer arithmetic. `Int(Double(interval) * ef)` becomes
  `(interval * ef) / 100`, truncated.
- Dates are whole day numbers. Every operation that reads the clock takes `now`
  as a parameter.
- The id that the app draws with `UUID()` is a natural number passed in by the
  caller, together with a precondition that it is unused.
- `Flashcard.swift` does not declare the three scheduler fields that
  `StudyView.swift` reads and writes (`easinessFactor`, `repetitions`,
  `interval`). The model adds them to `Flashcard`.
  - Their well-formedness is the predicate `Memory.Valid`: easiness at least 130,
    no negative repetition count, and an interval of at least one day once a card
    has been reviewed. It is part of the store invariant.
  - The constructor takes their values as an argument, so the model invents no
    initial values.
- The two screens mean different things by "due", and each is modelled as its
  code has it. The study screen uses `reviewDate <= now` (`DueBy`). The list
  screen's toggle uses `status == .notRemembered` (`IsNotRemembered`).

Behaviour of the code that the model keeps as it is:

- **Quality 4.** The easiness formula changes the easiness by exactly 0 for
  quality 4, so a new card at 2.5 rated 4 stays at 2.5 (`Study.RatingExamples`).
- **Quality range.** The code never checks the quality; its only callers are the
  six rating buttons made by `ForEach(0 ..< 6)` (AnkiMate/StudyView.swift:106).
  The model makes `0 <= quality <= 5` a precondition.
- **Unused tags.** `deleteFlashcard` deletes only the card; tags that no card
  uses any more remain stored (`Cards.Store.DeleteFlashcard`).
- **Saving.** The Save button is disabled while either side is empty
  (AnkiMate/AddFlashcardView.swift:96), so `SaveFlashcard` requires both sides to
  be non-empty. Store failures are discarded by `try?`, so the model's store never
  fails.
- **Tag names.** `addNewTag` inserts a tag only when no stored tag has its name,
  so no two stored tags share a name. The store invariant states this, and with
  it the tag `addNewTag` reuses is the only one with that name, whatever order
  the tag query returns.

## Model

| member | source | states |
|---|---|---|
| Cards.Flashcard.constructor | AnkiMate/Flashcard.swift:26-33 | every argument is stored unchanged in its field; tags, image and status default to none, none and not remembered |
| Cards.Tag.constructor | AnkiMate/Flashcard.swift:41-43 | the name (and the id handed in) are stored unchanged |
| Cards.Store.constructor | AnkiMate/Flashcard.swift:13 | an empty store satisfies the invariant: unique card ids, unique tag ids, unique tag names, valid scheduler states, cards refer only to stored tags |
| Cards.WithoutKeepsDistinctIds | AnkiMate/Flashcard.swift:13 | removing a card from a list with unique ids leaves the ids unique |
| Cards.DistinctIdsOccurOnce | AnkiMate/Flashcard.swift:13 | with unique ids, a stored card occurs exactly once in the store |
| Cards.Store.InsertTag | AnkiMate/AddFlashcardView.swift:134 | a tag with an unused id and an unused name is appended and the invariant is kept |
| Cards.Store.InsertFlashcard | AnkiMate/AddFlashcardView.swift:167 | a card with an unused id, a valid scheduler state and only stored tags is appended and the invariant is kept |
| Cards.Store.DeleteFlashcard | AnkiMate/FlashcardListView.swift:81-84 | exactly that card leaves the store (one fewer card when it was stored, no change otherwise), the other cards keep their order, every tag stays, and the invariant is kept |
| Seqs.Without | AnkiMate/FlashcardListView.swift:82 | the result never holds the removed element, keeps every other element, holds nothing new, and is an order-preserving subsequence |
| Seqs.WithoutOnce | AnkiMate/FlashcardListView.swift:82 | removing an element that occurs once shortens the list by exactly one |
| Seqs.WithoutAbsent | AnkiMate/FlashcardListView.swift:82 | removing an element that does not occur changes nothing |
| Seqs.SubsequenceTransitive | AnkiMate/FlashcardListView.swift:107-126 | a subsequence of a subsequence is a subsequence, so chained filter steps preserve order |
| Seqs.SubsequenceLength | AnkiMate/StudyView.swift:23-25 | a subsequence is no longer than its source, so the due snapshot is no longer than the deck |
| Text.Trim | AnkiMate/AddFlashcardView.swift:122 | the result is a slice of the input with only white space cut off around it, and it neither starts nor ends with white space |
| Text.TrimUnpadded | AnkiMate/AddFlashcardView.swift:122 | a string with no white space at either end is left as it is |
| Text.TrimIdempotent | AnkiMate/AddFlashcardView.swift:122 | trimming twice gives the same as trimming once |
| Text.Lowercased | AnkiMate/AddFlashcardView.swift:122 | the same length, each character lower-cased in place |
| Text.LowercasedIdempotent | AnkiMate/AddFlashcardView.swift:33 | lower-casing twice gives the same as lower-casing once |
| Text.TrimLowercased | AnkiMate/AddFlashcardView.swift:122 | trimming and lower-casing commute |
| Text.Contains | AnkiMate/AddFlashcardView.swift:33 | only a non-empty string is ever found, and an occurrence is no longer than the text searched; as in Foundation, the empty string is contained in nothing |
| Text.ContainsLowercased | AnkiMate/FlashcardListView.swift:120-121 | an occurrence stays an occurrence when both sides are lower-cased |
| Text.ContainsIgnoringCase | AnkiMate/FlashcardListView.swift:120-121 | case-insensitive search finds every exact occurrence and never finds the empty string |
| Text.ContainsIgnoringCaseLowercased | AnkiMate/FlashcardListView.swift:120-121 | lower-casing the text or the query does not change whether it is found |
| Text.LessTransitive | AnkiMate/FlashcardListView.swift:24 | the name order `<` is transitive |
| Text.LessTotal | AnkiMate/FlashcardListView.swift:24 | any two different names are ordered one way or the other |
| Text.LessIrreflexive | AnkiMate/FlashcardListView.swift:24 | no name is less than itself |
| CardFilter.Holds | AnkiMate/FlashcardListView.swift:110-123 | the filter closures: not remembered, has the tag (by identity), front or back contains the text ignoring case, and (StudyView.swift:24) review date on or before `now` |
| CardFilter.Keep | AnkiMate/FlashcardListView.swift:111 | one filter step keeps exactly the cards satisfying its criterion, in their original order |
| CardFilter.KeepAllHolding | AnkiMate/FlashcardListView.swift:110-123 | a step changes nothing when every card already satisfies it |
| CardFilter.KeepAll | AnkiMate/FlashcardListView.swift:108-125 | the chain of reassignments `filtered = filtered.filter …`, one step per criterion in order; its meaning is stated by `KeepAllMeaning` and `KeepAllSnoc` |
| CardFilter.KeepAllMeaning | AnkiMate/FlashcardListView.swift:107-126 | a card passes a chain of steps iff it is in the input and satisfies every criterion; the result is a subsequence of the input |
| CardFilter.KeepAllSnoc | AnkiMate/FlashcardListView.swift:108-125 | one more step at the end filters the result of the earlier steps |
| CardFilter.KeepAllIdempotent | AnkiMate/FlashcardListView.swift:107-126 | filtering a filter's result again with the same criteria returns it unchanged |
| CardFilter.KeepAllOfHolding | AnkiMate/FlashcardListView.swift:107-126 | a chain of steps changes nothing when every card satisfies every criterion |
| Study.EasinessDelta | AnkiMate/StudyView.swift:190 | the easiness change lies between -0.80 and +0.10; it is positive only for quality 5, zero only for 4, and negative for 3 or less |
| Study.EasinessDeltaTable | AnkiMate/StudyView.swift:190 | the easiness change for qualities 5 down to 0 is +0.10, 0, -0.14, -0.32, -0.54 and -0.80 |
| Study.Grown | AnkiMate/StudyView.swift:182 | the stretched interval is the product of interval and easiness truncated to whole days, and it is never shorter than the interval |
| Study.Schedule | AnkiMate/StudyView.swift:171-191 | the new scheduler state is always valid, with an interval of at least one day |
| Study.PassFromNew | AnkiMate/StudyView.swift:176-184 | a pass on a card with no repetitions gives interval 1 and one repetition |
| Study.PassFromFirst | AnkiMate/StudyView.swift:179-184 | a pass after one repetition gives interval 6 and two repetitions |
| Study.PassLater | AnkiMate/StudyView.swift:181-184 | later passes stretch the interval by the old easiness factor, add one repetition, and never shorten the interval |
| Study.FailResets | AnkiMate/StudyView.swift:185-188 | a fail gives no repetitions and interval 1, whatever the prior state |
| Study.EasinessUpdate | AnkiMate/StudyView.swift:190-191 | the new easiness is the old one plus the delta, floored at 1.3; quality 5 raises it by 0.1, 4 keeps it, 3 or less lowers it unless it is at the floor |
| Study.RatingExamples | AnkiMate/StudyView.swift:176-191 | concrete ratings: 4 on a new card keeps 2.5 and gives 1 day; then 5 gives 2.6 and 6 days; then 1 gives 2.06 and 1 day; 6 days at 1.3 stretch to 7 |
| Study.UpdateFlashcardStatus | AnkiMate/StudyView.swift:169-199 | the card's scheduler fields become `Schedule` of their old values, its review date is `now` plus the new interval and so after `now`, and no other field is written |
| Study.RatingLabel | AnkiMate/StudyView.swift:201-211 | each of the qualities 0..5, and only those, has a non-empty caption |
| Study.KeepSortedByReviewDate | AnkiMate/StudyView.swift:12-25 | filtering a deck sorted by review date keeps it sorted |
| Study.DueFlashcards | AnkiMate/StudyView.swift:23-25 | exactly the cards with review date on or before `now`, in deck order, sorted when the deck is sorted |
| Study.NothingDueAfterRating | AnkiMate/StudyView.swift:193-196 | once every card is scheduled after `now`, nothing is due on day `now` |
| Study.Session.constructor | AnkiMate/StudyView.swift:16-20 | the initial state: no snapshot, index 0, all flags off |
| Study.Session.Appear | AnkiMate/StudyView.swift:134-138 | the completed flag is set when nothing is due, and left alone otherwise |
| Study.Session.StartSession | AnkiMate/StudyView.swift:143-149 | the snapshot is exactly the due cards in query order (sorted in, sorted out), the first card is shown with its answer hidden, and the session is complete at once iff nothing is due |
| Study.Session.ToggleAnswer | AnkiMate/StudyView.swift:80-84 | tapping the front flips whether the answer is shown |
| Study.Session.ShowNextFlashcard | AnkiMate/StudyView.swift:151-160 | the answer is hidden; the index moves to the next card, or the session completes after the last one; the card left behind is recorded as visited |
| Study.Session.Rate | AnkiMate/StudyView.swift:105-111 | offered only while the answer is shown: the current card is rescheduled after `now` with its other fields unchanged, it is recorded as visited, and the session moves to the next card or, on the last card, completes with the index unchanged |
| Study.Session.RestartSession | AnkiMate/StudyView.swift:162-167 | back to the start screen: not started, not complete, index 0, answer hidden, nothing visited |
| Study.RateAll | AnkiMate/StudyView.swift:80-160 | revealing and rating until the session ends visits every snapshot card once, in order, and leaves no card of the deck due on day `now`; only scheduler fields and review dates are written, no card's text, tags, image or status changes, and cards outside the snapshot keep their scheduler state and review date |
| Study.StudyAllDue | AnkiMate/StudyView.swift:143-167 | a whole session from start visits exactly the due cards in order and completes; afterwards no card is due that day, so a restart finds nothing to study; no card's text, tags, image or status changes, and the cards that were not due keep their scheduler state and review date |
| Study.StudyStore | AnkiMate/StudyView.swift:12-25 | a session over the store's cards keeps the store's invariant: unique ids and names, valid scheduler states, only stored tags on cards |
| AddFlashcard.NormalizeTagName | AnkiMate/AddFlashcardView.swift:122-125 | a normalised name always starts with the `#` marker |
| AddFlashcard.IsAcceptedName | AnkiMate/AddFlashcardView.swift:126 | a marked name is accepted iff something follows the marker |
| AddFlashcard.NormalizedShape | AnkiMate/AddFlashcardView.swift:122-125 | the name is the trimmed, lower-cased input, with a `#` put in front only when the trimmed input does not start with one; it is lower-case |
| AddFlashcard.RejectedNames | AnkiMate/AddFlashcardView.swift:122-128 | the guard rejects exactly the input that trims to nothing or to a bare `#` |
| AddFlashcard.NormalizeIgnoresCase | AnkiMate/AddFlashcardView.swift:122 | input that differs only in letter case gives the same name |
| AddFlashcard.NormalizeIgnoresPadding | AnkiMate/AddFlashcardView.swift:122 | white space around the input does not change the name |
| AddFlashcard.NormalizeUnmarked | AnkiMate/AddFlashcardView.swift:122-125 | unpadded, unmarked input becomes `#` followed by its lower-cased form |
| AddFlashcard.NormalizeMarked | AnkiMate/AddFlashcardView.swift:122-125 | unpadded input that starts with `#` is only lower-cased; it gets no second marker |
| AddFlashcard.NormalizeMarkerOptional | AnkiMate/AddFlashcardView.swift:123-125 | typing the marker in front of an unpadded, unmarked name gives the same name as leaving it out |
| AddFlashcard.NormalizeFoo | AnkiMate/AddFlashcardView.swift:122-125 | `Foo` names the tag `#foo` |
| AddFlashcard.NormalizeLowerFoo | AnkiMate/AddFlashcardView.swift:122-125 | `foo` names the same tag as `Foo` |
| AddFlashcard.NormalizeMarkedFoo | AnkiMate/AddFlashcardView.swift:122-125 | `#FOO` names the same tag as `Foo` |
| AddFlashcard.FirstNamed | AnkiMate/AddFlashcardView.swift:130 | nothing is found iff no stored tag has the name; a found tag is stored and has the name |
| AddFlashcard.FirstNamedIsFirst | AnkiMate/AddFlashcardView.swift:130 | the tag found is the first one with the name |
| AddFlashcard.FirstNamedOnly | AnkiMate/AddFlashcardView.swift:130 | when tag names are unique, the tag found is the only stored tag with that name |
| AddFlashcard.Toggled | AnkiMate/AddFlashcardView.swift:143-149 | only the toggled tag changes membership; every other tag keeps its selection |
| AddFlashcard.ToggledTwice | AnkiMate/AddFlashcardView.swift:143-149 | toggling the same tag twice restores the selection |
| AddFlashcard.TagsMatching | AnkiMate/AddFlashcardView.swift:33 | exactly the tags whose name contains the text, ignoring case, in store order |
| AddFlashcard.TagsMatchingEmpty | AnkiMate/AddFlashcardView.swift:33-35 | no tag is left iff no tag matches |
| AddFlashcard.SelectedOf | AnkiMate/AddFlashcardView.swift:38 | only selected tags are kept |
| AddFlashcard.UnselectedOf | AnkiMate/AddFlashcardView.swift:38 | only unselected tags are kept |
| AddFlashcard.PartitionPermutes | AnkiMate/AddFlashcardView.swift:38 | the selected and the unselected tags together are a permutation of the input |
| AddFlashcard.PartitionKeepsOrder | AnkiMate/AddFlashcardView.swift:38 | the selected tags and the unselected tags each keep the order of the input |
| AddFlashcard.SelectedFirst | AnkiMate/AddFlashcardView.swift:38 | a permutation of the input with no unselected tag before a selected one, each group in its original order, as the stable sort gives |
| AddFlashcard.SameMembers | AnkiMate/AddFlashcardView.swift:38 | a permutation has the same members as its source |
| AddFlashcard.ArrayOf | AnkiMate/AddFlashcardView.swift:152 | the array holds exactly the selected tags, each once |
| AddFlashcard.AddFlashcardForm.constructor | AnkiMate/AddFlashcardView.swift:20-28 | an empty form, for a new card or for a stored card to edit |
| AddFlashcard.AddFlashcardForm.Appear | AnkiMate/AddFlashcardView.swift:111-118 | editing loads the card's text, tags and image; otherwise nothing changes |
| AddFlashcard.AddFlashcardForm.FilteredTags | AnkiMate/AddFlashcardView.swift:30-40 | with no text, all tags with the selected ones first; with text that matches, exactly the matching tags with the selected ones first; in both, each group keeps store order; with text that matches nothing, all tags in store order |
| AddFlashcard.AddFlashcardForm.AddNewTag | AnkiMate/AddFlashcardView.swift:121-136 | a rejected name changes nothing; a name a stored tag has selects the first such tag and inserts nothing; any other name appends exactly one fresh tag with that name and id and selects it; an accepted name ends with every stored tag of that name selected |
| AddFlashcard.AddFlashcardForm.SelectTagNamed | AnkiMate/AddFlashcardView.swift:126-136 | the same three outcomes for an already normalised name |
| AddFlashcard.AddFlashcardForm.ToggleTagSelection | AnkiMate/AddFlashcardView.swift:143-149 | the selection becomes the old one with that tag's membership flipped |
| AddFlashcard.AddFlashcardForm.SaveFlashcard | AnkiMate/AddFlashcardView.swift:151-172 | with both sides filled in: an edit overwrites text, tags (each selected tag once) and image and keeps the review date, status and scheduler state; a new card with the form's contents (each selected tag once), due on day `now` and not remembered, is appended; the store invariant holds |
| AddFlashcard.AddFlashcardForm.ClearFieldsForNextEntry | AnkiMate/AddFlashcardView.swift:174-180 | text, selection, typed tag and image are emptied |
| CardList.NameAtMostTransitive | AnkiMate/FlashcardListView.swift:24 | the order used by the tag menu is transitive |
| CardList.InsertByName | AnkiMate/FlashcardListView.swift:24 | inserting into a name-sorted list keeps it sorted and adds exactly that tag |
| CardList.SortByName | AnkiMate/FlashcardListView.swift:24 | a permutation of the tags in ascending name order |
| CardList.Tapped | AnkiMate/FlashcardListView.swift:42 | tapping the selected tag clears the selection; tapping another tag selects it |
| CardList.TappedTwice | AnkiMate/FlashcardListView.swift:42 | tapping the same tag twice from no selection, or from that tag, restores the selection |
| CardList.TappedTwiceFromOther | AnkiMate/FlashcardListView.swift:42 | tapping a tag twice while another tag is selected ends with no selection |
| CardList.FlashcardList.constructor | AnkiMate/FlashcardListView.swift:14-19 | no tag selected, toggle off, no search text, no tags loaded |
| CardList.FlashcardList.UniqueTags | AnkiMate/FlashcardListView.swift:23-25 | the tag menu is a permutation of the loaded tags in ascending name order |
| CardList.FlashcardList.ActiveCriteria | AnkiMate/FlashcardListView.swift:110-123 | a criterion is active exactly when its control is set |
| CardList.FlashcardList.ActiveCriteriaMeaning | AnkiMate/FlashcardListView.swift:110-123 | a card passes the active criteria iff it is to be shown |
| CardList.FlashcardList.FilteredFlashcards | AnkiMate/FlashcardListView.swift:107-126 | exactly the stored cards that are not remembered (toggle on), have the selected tag (if any) and mention the search text ignoring case (if any), in store order; with no filter set, all stored cards |
| CardList.FlashcardList.FilterMeaning | AnkiMate/FlashcardListView.swift:107-126 | the active filters keep, in order, exactly the cards that are to be shown |
| CardList.FlashcardList.FilterIdempotent | AnkiMate/FlashcardListView.swift:107-126 | filtering the shown cards again shows the same cards |
| CardList.FlashcardList.TapTag | AnkiMate/FlashcardListView.swift:42 | the selected tag becomes the tapped result |
| CardList.FlashcardList.SelectTag | AnkiMate/FlashcardListView.swift:62 | picking a tag from the menu selects it |
| CardList.FlashcardList.ShowAllTags | AnkiMate/FlashcardListView.swift:59 | "All Tags" clears the tag filter |
| CardList.FlashcardList.DeleteFlashcard | AnkiMate/FlashcardListView.swift:81-84 | the card leaves the store, the tags stay, and the store invariant is kept |
| CardList.FlashcardList.LoadAllTags | AnkiMate/FlashcardListView.swift:86-93 | the menu's tags become every stored tag |

## Left out

- SwiftUI view bodies, layout, animations, alerts, navigation and previews. The
  model keeps only the state these views read and the actions they trigger.
- SwiftData persistence. `modelContext.insert/delete/save/fetch` and `@Query`
  become the in-memory `Store`. Save failures and fetch failures are swallowed by
  `try?` and `catch` in the code, so the store never fails here. The screens
  share one `Store` object instead of re-running their queries.
- The `@Query` sort by review date on the study screen is not modelled as a
  sort. `StartSession` takes the deck in query order and promises that a sorted
  deck gives a sorted snapshot.
- Haptic feedback, the photo picker and image loading (asynchronous platform
  calls), and `UIImage` decoding. Image data is an opaque byte sequence that is
  copied around.
- The `DispatchQueue.main.asyncAfter` reset of the typed tag text and of the
  focus after `addNewTag` (AnkiMate/AddFlashcardView.swift:137-140). This is a
  delayed concurrent update. `AddNewTag` leaves `newTagText` unchanged.
- `generateTagColors` (AnkiMate/FlashcardListView.swift:95-105): it draws random
  colours and is display-only.
- `Calendar.current.date(byAdding:)` and its `?? Date()` fallback: days are
  integers, so adding days cannot fail.
- Study.Grown: IEEE-754 doubles are not modelled. The easiness factor is exact
  in hundredths, while the code rounds in binary floating point. Where the exact
  product `interval * ef` is a whole number, the code's double product can land
  just below it and truncate one day lower; the model always gives the exact
  truncation.
- Unicode and locale rules of `lowercased()`, `localizedCaseInsensitiveContains`,
  `trimmingCharacters(in: .whitespacesAndNewlines)`, `<`, `==` (tag lookup,
  AnkiMate/AddFlashcardView.swift:130) and `hasPrefix` (line 123) on strings.
  Swift compares strings up to Unicode canonical equivalence; the model compares
  code points. It folds only the ASCII letters, trims the six ASCII white-space
  characters, and orders names by code point.
- Study.Grown: Swift's `Int` is 64 bits, and `Int(Double(interval) * ef)` traps
  once the product passes `Int.max`. The model's integers are unbounded, so that
  trap is not modelled.
- The order of the tag query (AnkiMate/AddFlashcardView.swift:18), of the tag
  fetch (AnkiMate/FlashcardListView.swift:89) and of the list screen's card query
  (AnkiMate/FlashcardListView.swift:12), which have no sort. The store keeps
  tags and cards in insertion order, so "store order" in the list screen's
  contracts is insertion order. Which tag `first(where:)` finds does not depend
  on it, because stored tag names are unique.
- Study.Session.Rate: the quality range 0..5 is a precondition. The code has no
  check, and its only callers are the six buttons made by `ForEach(0 ..< 6)`.
- CardList.SortByName: the order among tags with equal names is not stated.
  Stored tag names are unique (`Store.Valid`), so loaded tags never have equal
  names and the ascending order fixes the result.
- Study.RateAll: which quality each snapshot card was rated with is not stated
  per position; the contract says that every snapshot card is rescheduled
  after `now`, and each single rating is pinned by `Study.Session.Rate`.
- Study.StudyAllDue: likewise, the quality each due card received is not stated
  per position.
- AddFlashcard.ArrayOf: `Array(selectedTags)` has an unspecified order, so only
  the members (each once) are stated.
- The text fields and the toggle are SwiftUI bindings that write the form's and
  the list's fields directly. They are plain field assignments and have no
  methods of their own.
