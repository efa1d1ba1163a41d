# News reader screen rules, modelled in Dafny

This project models the discrete rules inside the screens of a small mobile news reader. The app fetches a list of posts from a mock REST service. It shows them in a swipeable card carousel filtered by topic, offers a free-text search, and lets the reader bookmark posts into on-device key-value storage. The model works over abstract post records (`id`, `title`, optional `description`, optional `type`, here named `kind`). It covers:

- **Topic filter and carousel** (`News`, `Carousel`): the posts shown for the selected topic, the card index that a pan gesture moves by one card within bounds, the reset of that index when the topic or the data changes, the cells' stacking order, and the choice between spinner, error, "no posts" and carousel.
- **Search** (`Search`, `Text`): a case-insensitive substring filter over title and description, where a blank query lists everything, and the screen's render state.
- **Bookmarks** (`PostView`, `Storage`): the "is saved" check and the save/unsave toggle over the list stored under the key `savedPosts`.
- **Saved posts** (`SavedPosts`): reloading the stored list on mount and on every focus, the same bounded carousel stepping, and the empty-list guard.
- **Bottom navigation** (`BottomNav`): route to highlighted button, button to navigation target, labels.
- **Topic selector** (`Topics`): the five topics, the selection and the 0/1 animation target of each button.

All screens filter with one order-preserving `Filter` (`Posts`), which stands for JavaScript's `Array.prototype.filter`. The carousel rule is written once (`Carousel.SwipeStep`) and used by both carousel screens. Mutable screen state (`NewsScreen`, `SavedPostsScreen`, `PostViewScreen`, `TopicSelector`, the storage `Store`) is modelled as classes whose methods are proved against the pure functions. The HTTP request, storage I/O, JSON and animations are outside the model. Their outcomes are method parameters: a `FetchOutcome`, `readOk`/`writeOk` flags, and a `Velocity`.

## Model

| member | source | states |
|---|---|---|
| `Posts.Filter` | components/News.jsx:56-58 | `Array.prototype.filter`: the result is no longer than the input and every element it keeps satisfies the predicate |
| `Posts.FilterIsSubsequence` | components/News.jsx:56-58 | filtering only deletes elements: the result is a subsequence of the input, in the input's order |
| `Posts.FilterMultiplicity` | components/News.jsx:56-58 | a kept value occurs exactly as often as in the input; a dropped value does not occur at all |
| `Posts.SubsequenceIsContained` | components/News.jsx:56-58 | a subsequence is never longer than its original and holds only elements of it |
| `Posts.FilterMembership` | components/SearchScreen.jsx:48-51 | a value is in the filtered list iff it is in the input and satisfies the predicate |
| `Posts.FilterAppend` | components/PostView.jsx:56-59 | filtering a list with an appended entry filters the list and the entry separately |
| `Text.ToUpper` | components/News.jsx:57 | `toUpperCase` keeps the length and upper-cases each character in place |
| `Text.ToLower` | components/SearchScreen.jsx:49-50 | `toLowerCase` keeps the length and lower-cases each character in place |
| `Text.LowerIdempotent` | components/SearchScreen.jsx:49-50 | lower-casing twice is lower-casing once |
| `Text.LowerOfUpper` | components/SearchScreen.jsx:49-50 | lower-casing erases any earlier upper-casing |
| `Text.IncludesIff` | components/SearchScreen.jsx:49-50 | `includes` holds iff some window of the haystack equals the needle |
| `Text.Includes` | components/SearchScreen.jsx:49-50 | `includes`: the empty needle is found in every string and a needle longer than the haystack in none; `IncludesIff` equates the scan with "some window equals the needle" |
| `Text.TrimStart` | components/SearchScreen.jsx:45 | removes exactly the leading white space: the result is a suffix, every removed character is white space, and the result does not start with white space |
| `Text.TrimEnd` | components/SearchScreen.jsx:45 | removes exactly the trailing white space, symmetrically |
| `Text.Trim` | components/SearchScreen.jsx:45 | `trim()` is never longer than its input and a non-empty result neither starts nor ends with white space; `TrimIsPiece` and `TrimEmptyIff` complete it |
| `Text.TrimIsPiece` | components/SearchScreen.jsx:45 | the trimmed query is a contiguous piece of the query with nothing but white space before and after it |
| `Text.TrimEmptyIff` | components/SearchScreen.jsx:45 | `query.trim() === ''` iff every character of the query is ECMAScript white space |
| `Carousel.SwipeStep` | components/News.jsx:77-87 | a pan moves the index by at most one card; forward only if a later card exists, back only if an earlier card exists (the same rule as components/SavedPostsScreen.jsx:182-194) |
| `Carousel.SwipeStaysInRange` | components/News.jsx:82-86 | an index inside [0, length-1] (or the 0 of an empty list) stays inside after any pan |
| `Carousel.SwipeIgnored` | components/News.jsx:80-86 | no move while animating, for a non-number velocity, for NaN, or for velocity 0 |
| `Carousel.SwipeDirection` | components/News.jsx:82-86 | the index goes up iff the fling is leftward, nothing animates and `index < length - 1`; it goes down iff the fling is rightward, nothing animates and `index > 0` |
| `Carousel.SwipeBeyondEnd` | components/SavedPostsScreen.jsx:188-192 | an index past the last card is never pushed further out, and a rightward fling brings it back by one |
| `Carousel.Swipes` | components/News.jsx:77-87 | a run of n pans (none during a spring) moves the index by at most n cards; `SwipesStayInRange` and `LeftSwipesReach` specify it further |
| `Carousel.SwipesStayInRange` | components/News.jsx:77-87 | any run of pans keeps a valid index valid |
| `Carousel.LeftSwipesReach` | components/News.jsx:82-83 | k leftward flings from card i reach card min(i + k, length - 1), so every later card is reachable |
| `Carousel.ZIndex` | components/News.jsx:131 | a cell's zIndex `length - index` lies in [1, length] for every valid index, and the first card is on top (also components/SavedPostsScreen.jsx:202) |
| `Carousel.ZIndexDecreasing` | components/SavedPostsScreen.jsx:202 | zIndex strictly decreases along the list |
| `News.HasTopic` | components/News.jsx:57 | a post matches a topic only if it has a type as long as the topic, so the empty topic matches nothing; `UntypedPostHidden` and `TypeCaseIgnored` specify it further |
| `News.TopicFilter` | components/News.jsx:52-60 | the shown list is never longer than the data and, under a topic other than 'ALL', holds only posts of that topic; specified exactly by `AllTopicShowsEverything` and `TopicFilterExact` |
| `News.AllTopicShowsEverything` | components/News.jsx:53-54 | under 'ALL' the shown list equals the fetched list exactly |
| `News.TopicFilterExact` | components/News.jsx:55-59 | under any other topic: a subsequence of the data, holding each post whose type upper-cases to the topic exactly as often as fetched, and no other post |
| `News.UntypedPostHidden` | components/News.jsx:57 | a post whose type is missing or empty never appears under a topic other than 'ALL' |
| `News.TypeCaseIgnored` | components/News.jsx:57 | types that differ only in case (the empty type included) match the same topics |
| `News.LowerCaseTopicMatchesNothing` | components/News.jsx:57 | a topic containing an ASCII lower-case letter shows no post |
| `News.Render` | components/News.jsx:89-111 | spinner iff loading; else the error text iff an error is set; else "no posts" iff the filtered list is empty; else the carousel over the filtered list |
| `News.NewsScreen.constructor` | components/News.jsx:26-32 | initial state: no data, empty filtered list, loading, no error, index 0, not animating |
| `News.NewsScreen.RefilterAndReset` | components/News.jsx:52-62 | the topic/data effect: the filtered list becomes the topic filter of the data and the index becomes 0; nothing else changes |
| `News.NewsScreen.ReceiveFetch` | components/News.jsx:34-49 | a response replaces the data, re-filters and resets the index; a failure sets 'Could not load posts' and leaves data and index; loading ends either way |
| `News.NewsScreen.SetTopic` | components/News.jsx:52-62 | a different topic re-filters and resets the index to 0; the same topic again changes nothing |
| `News.NewsScreen.PanEnd` | components/News.jsx:77-87 | the index becomes `SwipeStep` of the old index over the filtered list, and the screen invariant (index in range) is kept |
| `News.NewsScreen.StartSpring` | components/News.jsx:64-75 | the index effect raises the animation guard and springs toward the current index |
| `News.NewsScreen.SpringFinished` | components/News.jsx:72-74 | the spring's completion lowers the guard |
| `News.NewsScreen.View` | components/News.jsx:113-121 | whenever the carousel is shown, it is over the filtered list and the index names one of its cards |
| `Search.Matches` | components/SearchScreen.jsx:48-51 | the empty query matches every post; a query longer than both the title and the description matches none; `NoDescriptionMatchesTitleOnly` and `SearchIgnoresCase` specify it further |
| `Search.SearchFilter` | components/SearchScreen.jsx:44-54 | the result is never longer than the posts and, for a non-blank query, holds only posts that match it; specified exactly by `BlankQueryListsAll` and `SearchExact` |
| `Search.BlankQueryListsAll` | components/SearchScreen.jsx:45-46 | an empty or all-white-space query lists every post, in order |
| `Search.SearchExact` | components/SearchScreen.jsx:47-53 | any other query lists a subsequence of the posts that holds each matching post as often as fetched, and no other post |
| `Search.SearchIsSubsequence` | components/SearchScreen.jsx:44-54 | whatever the query, the result is a subsequence of the posts and lists only fetched posts |
| `Search.BlankIgnoresCase` | components/SearchScreen.jsx:45 | queries equal up to ASCII case are both blank or both non-blank |
| `Search.SearchIgnoresCase` | components/SearchScreen.jsx:49-50 | queries equal up to ASCII case list the same posts |
| `Search.UpperCaseQuerySameResult` | components/SearchScreen.jsx:49-50 | typing the query in capitals lists the same posts |
| `Search.NoDescriptionMatchesTitleOnly` | components/SearchScreen.jsx:50 | a post with a missing or empty description matches iff its lower-cased title includes the lower-cased query |
| `Search.UntrimmedQueryExample` | components/SearchScreen.jsx:45-49 | the non-blank branch matches the untrimmed query: " news" does not find a post titled "news" |
| `Search.TrimmedQueryExample` | components/SearchScreen.jsx:47-51 | the query "news" finds the post titled "news" |
| `Search.InitialConsistent` | components/SearchScreen.jsx:18-22 | the mount state (empty query, no posts) already lists the search filter of its posts, so the first run of the filter effect changes nothing |
| `Search.ReceiveFetch` | components/SearchScreen.jsx:25-41 | a response becomes both `posts` and `filteredPosts`; a failure sets the error; loading ends either way |
| `Search.Refilter` | components/SearchScreen.jsx:44-54 | the query/posts effect makes `filteredPosts` the search filter of `posts` for the current query and changes nothing else |
| `Search.FetchAlreadyConsistent` | components/SearchScreen.jsx:30-31 | right after a successful fetch with a blank query, `filteredPosts` equals `posts`, so the following effect changes nothing |
| `Search.TypeQuery` | components/SearchScreen.jsx:85-91 | editing the query leaves the listed posts equal to the search filter of the posts for the new query, while the posts, the error and the end of loading are kept |
| `Search.Render` | components/SearchScreen.jsx:56-97 | spinner iff loading; else the error iff set; else "No results found." iff the result is empty; else the list of results |
| `PostView.IsSavedIn` | components/PostView.jsx:39 | `some((p) => p.id === id)`; specified by `UnsaveRemovesAll`, `SaveAppends` and `ToggleKeepsAgreement` |
| `PostView.Toggled` | components/PostView.jsx:54-59 | unsaving leaves no entry with the post's id and never lengthens the list; saving adds one entry, the post, at the end; `SaveThenUnsaveRestores` relates the two |
| `PostView.UnsaveRemovesAll` | components/PostView.jsx:54-56 | unsaving removes every entry with the post's id and keeps every other entry in order, as often as before |
| `PostView.SaveAppends` | components/PostView.jsx:57-59 | saving appends the post at the end, leaves the earlier entries unchanged, and makes the id present |
| `PostView.StaleFlagDuplicates` | components/PostView.jsx:54-59 | toggling with a stale "not saved" flag for a post already stored appends a second entry with the same id |
| `PostView.ToggleKeepsAgreement` | components/PostView.jsx:49-63 | if the flag agreed with "id present in the list" before a toggle, the flipped flag agrees with the written list |
| `PostView.SaveThenUnsaveRestores` | components/PostView.jsx:54-59 | saving a post whose id is absent and then unsaving it restores the original list exactly |
| `Storage.Store.constructor` | components/PostView.jsx:37 | the store holds the given value under 'savedPosts', `None` when the key was never written |
| `Storage.StoredList` | components/PostView.jsx:38 | `saved ? JSON.parse(saved) : []`: an absent value reads as [], a present one as the stored list verbatim |
| `PostView.PostViewScreen.constructor` | components/PostView.jsx:12 | the flag starts false |
| `PostView.PostViewScreen.CheckIfSaved` | components/PostView.jsx:34-46 | after a successful read the flag is true iff some stored post (an absent value reads as []) has the viewed post's id; on an error the flag is unchanged |
| `PostView.PostViewScreen.ToggleSave` | components/PostView.jsx:49-67 | on success the store holds the toggled list and the flag flips; on any read or write error neither changes; agreement between flag and store is preserved |
| `SavedPosts.Render` | components/SavedPostsScreen.jsx:224-263 | "No saved posts yet." iff the list is empty, the carousel over the list otherwise |
| `SavedPosts.SavedPostsScreen.constructor` | components/SavedPostsScreen.jsx:102-105 | initial state: empty list, index 0, not animating, no spring started |
| `SavedPosts.SavedPostsScreen.LoadSavedPosts` | components/SavedPostsScreen.jsx:112-162 | on mount and on every focus, a successful read makes the list the stored one (absent reads as []); the index and the guard are untouched |
| `SavedPosts.SavedPostsScreen.PanEnd` | components/SavedPostsScreen.jsx:182-194 | the index becomes `SwipeStep` over the saved list; it stays non-negative, stays in range if it was, and never moves further past the end |
| `SavedPosts.SavedPostsScreen.StartSpring` | components/SavedPostsScreen.jsx:164-176 | with an empty list no spring starts and the guard is untouched; otherwise the guard is raised and the spring targets the index |
| `SavedPosts.SavedPostsScreen.SpringFinished` | components/SavedPostsScreen.jsx:173-175 | the spring's completion lowers the guard |
| `SavedPosts.SavedPostsScreen.View` | components/SavedPostsScreen.jsx:224-228 | the carousel is shown iff the list is non-empty |
| `BottomNav.SelectedIcon` | components/BottomNav.jsx:23-36 | Main, Search and SavedPosts highlight a button; PostView and every other route highlight none; the drawer is never the selected icon |
| `BottomNav.PressTarget` | components/BottomNav.jsx:40-48 | every button but the drawer navigates somewhere; the drawer does nothing |
| `BottomNav.Label` | components/BottomNav.jsx:50-55 | every button has a non-empty label (home News, search Search, mark Mark, drawer Menu) |
| `BottomNav.ShownLabel` | components/BottomNav.jsx:72-81 | a button shows its label iff it is highlighted |
| `BottomNav.PressHighlights` | components/BottomNav.jsx:24-47 | pressing a button leads to route r iff r highlights that button: home/Main, search/Search, mark/SavedPosts |
| `BottomNav.AtMostOneHighlighted` | components/BottomNav.jsx:61-64 | no two buttons are highlighted for the same route |
| `BottomNav.DrawerNeverHighlighted` | components/BottomNav.jsx:134-157 | the Menu button is never highlighted and never shows its label |
| `Topics.TopicsDistinct` | components/topics.jsx:17 | the five topics are pairwise distinct |
| `Topics.TopicsUpperCase` | components/topics.jsx:17 | every topic is its own upper-case form |
| `Topics.PressedTargets` | components/topics.jsx:29-34 | after pressing a topic, the target table covers exactly the five topics, with 1 for the pressed topic and 0 for all others |
| `Topics.ExactlyOneTargeted` | components/topics.jsx:29-34 | exactly one topic, the pressed one, is targeted 1 |
| `Topics.OneSelectedStyle` | components/topics.jsx:67-70 | at most one button carries the selected text style |
| `Topics.TopicSelector.constructor` | components/topics.jsx:19-24 | 'ALL' is selected while every target, ALL's included, is 0, so selection and backgrounds disagree until the first press |
| `Topics.TopicSelector.HandlePress` | components/topics.jsx:26-35 | the pressed topic becomes selected and is passed to `onTopicChange`; the loop leaves it targeted 1 and every other topic 0; pressing the selected topic again changes nothing |
| `Topics.PressedTargetsUnique` | components/topics.jsx:29-34 | any table over the topics with 1 for the pressed topic and 0 elsewhere is the press's table |

## Left out

- The HTTP GET of the posts and its response: modelled as a `FetchOutcome` parameter (the list, or a failure).
- The on-device key-value storage and the JSON parsing and serialising around it: modelled as a `Store` object holding an optional list under the single key `savedPosts`. A throwing read, parse or write is a `readOk`/`writeOk` flag. Errors are only logged in the source, and logging is not modelled.
- All animation: springs, timings, interpolations of position, scale, opacity, rotation and colour, and the fade and slide of the post view and the saved-posts list. Only the boolean `isAnimating` guard, the spring's target index and the 0/1 targets of the topic buttons are kept.
- The gesture thread hand-off (`runOnJS`) and the asynchronous timing of effects and promise continuations. Each effect or continuation is one atomic method, so interleavings such as two overlapping `toggleSave` calls are not modelled.
- The pan gesture's activation distance (`minDistance(50)`), and velocity magnitudes beyond their sign.
- Layout constants derived from the screen width, and styles.
- Navigation actions other than the bottom bar's targets: pressing a card to open the post view, and the back buttons.
- The latest-news panel (an expand/collapse animation over a float screen height), the app shell, the header and the static main text.
- Text.ToUpper: folds only the ASCII letters; JavaScript's Unicode case mapping (which can change a string's length, as with 'ß') is not modelled.
- Text.ToLower: folds only the ASCII letters, for the same reason.
