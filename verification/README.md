# Call-history view: transcript parser and call-table pipeline

This project is a Dafny model of the two pieces of pure logic in the call-history view of a
lead-management and AI-calling dashboard.

- **The transcript parser** (`parseTranscript` in the chat-transcript component). A raw call
  transcript is split on line feeds, and lines that are blank after trimming are dropped. A line whose
  trimmed form starts with `AI:` or `User:` opens a new `{role, content}` message, whose content is the
  trimmed remainder after the prefix. Any other line is appended to the open message after a newline.
  Lines that come before the first speaker prefix are discarded.
- **The call table** (the `CallHistory` component). The search filter keeps a call when the lower-cased
  search term occurs in its lower-cased name, e-mail or summary, or in its phone number as typed. Then
  comes the stable sort on one field, in one direction. Then comes the current page, `slice((p-1)*s,
  (p-1)*s+s)`, with `Math.ceil(n/s)` pages. Beside the pipeline sit the sort-header toggle, word-based
  `truncateText`, the status and grade badges, and the play/pause state of the recording player.

Every operation is a pure function over immutable datatypes. The JavaScript primitives the source
relies on are modelled explicitly, because the results depend on their edge cases:

- `trim` uses the full ECMAScript whitespace and line-terminator set.
- `split` on one character gives `[""]` for the empty string.
- `Array.prototype.slice` resolves a negative index from the end and clamps to the length.
- `includes` and `startsWith` are modelled as written.
- `flatMap` stands for a `filter` followed by the per-line classification.

Modules follow the program's structure:

| file | module | models |
|---|---|---|
| wrappers.dfy | `Wrappers` | `T \| null` as `Option<T>` |
| js_string.dfy | `JsString` | `trim`, `split`/`join`, `startsWith`, `includes`, `toLowerCase` |
| js_array.dfy | `JsArray` | `slice`, `flatMap` |
| transcript.dfy | `Transcript` | `Message`, `parseTranscript` |
| call_record.dfy | `CallRecords` | the fields of `CallRecord` that the table reads |
| call_search.dfy | `CallSearch` | `filteredCalls` |
| stable_sort.dfy | `StableSort` | the stable `Array.prototype.sort` |
| call_sort.dfy | `CallSort` | `SortConfig`, `handleSort`, the comparator, `sortedCalls` |
| pagination.dfy | `Pagination` | `currentTableData`, `totalPages` |
| truncate.dfy | `Truncation` | `truncateText` |
| badges.dfy | `Badges` | `getStatusColor`, `getGradeColor`, the grade label |
| audio_player.dfy | `AudioPlayer` | `AudioPlayerState`, `handlePlayPause`, the `ended` listener |
| call_table.dfy | `CallTable` | filter, then sort, then page, end to end |

The transcript parser has a partner, `Transcript.Grouped`. It is a reference definition that states
the output group by group, and `ParseLinesIsGrouped` proves that the line-by-line fold of the source
agrees with it on every input. The counting, ordering and discarding properties are proved through
that equivalence. The `push`-at-the-end lemmas (`AppendOpener`, `AppendContinuation`) characterise
the fold one line at a time.

The lead-management pages (CSV import, the lead table with its own sort hook and inline editing),
the analytics overview and the server side are not part of this model. Only the shared
call-history component is.

## Model

| member | source | states |
|---|---|---|
| `JsString.TrimStart` | components/shared/CallHistory/ChatTranscript.tsx:80 | Removing leading whitespace leaves a suffix of the input that is empty or starts with a non-whitespace character. |
| `JsString.TrimStartDropsPadding` | components/shared/CallHistory/ChatTranscript.tsx:80 | Everything removed from the front is whitespace, so the removed part and the suffix make up the input. |
| `JsString.TrimEnd` | components/shared/CallHistory/ChatTranscript.tsx:80 | Removing trailing whitespace leaves a prefix of the input that is empty or ends with a non-whitespace character. |
| `JsString.TrimEndDropsPadding` | components/shared/CallHistory/ChatTranscript.tsx:80 | Everything removed from the back is whitespace. |
| `JsString.Trim` | components/shared/CallHistory/ChatTranscript.tsx:80 | The result of `trim` neither starts nor ends with whitespace and is no longer than the input. |
| `JsString.TrimInfix` | components/shared/CallHistory/ChatTranscript.tsx:80 | `trim` only removes padding. Its result is an infix of the input, and everything cut off at either end is whitespace. |
| `JsString.TrimUnique` | components/shared/CallHistory/ChatTranscript.tsx:80 | Any whitespace padding around a core that neither starts nor ends with whitespace trims to exactly that core. This characterises `trim` completely. |
| `JsString.TrimIdempotent` | components/shared/CallHistory/ChatTranscript.tsx:80 | Trimming twice gives the same string as trimming once. |
| `JsString.TrimEmptyIff` | components/shared/CallHistory/ChatTranscript.tsx:75 | A line is dropped by the blank-line filter exactly when every character in it is whitespace. |
| `JsString.Split` | components/shared/CallHistory/ChatTranscript.tsx:75 | `split` returns at least one piece, even for the empty string, and no piece contains the separator. |
| `JsString.SplitCount` | components/shared/CallHistory/ChatTranscript.tsx:75 | `split` returns one piece more than there are separators in the string. |
| `JsString.JoinOfSplit` | components/shared/CallHistory/index.tsx:171-173 | Joining the pieces of a split with the same separator gives back the original string. |
| `JsString.SplitOfJoin` | components/shared/CallHistory/index.tsx:171-173 | Splitting a join of separator-free pieces gives back the pieces. |
| `JsString.SplitAround` | components/shared/CallHistory/ChatTranscript.tsx:75 | A separator between two strings splits into the pieces of the first followed by the pieces of the second. |
| `JsString.JoinPrefix` | components/shared/CallHistory/index.tsx:173 | The first `k` words joined by spaces are a prefix of all the words joined. |
| `JsString.IncludesIff` | components/shared/CallHistory/index.tsx:77-80 | `includes` holds exactly when the needle occurs at some index of the string. |
| `JsString.LowerChar` | components/shared/CallHistory/index.tsx:75 | A lower-cased character is never a capital. A capital `A`..`Z` becomes the letter 32 code points later, `a`..`z`, and every other character is left as it is. |
| `JsString.ToLower` | components/shared/CallHistory/index.tsx:75 | Lower-casing keeps the length and leaves no capital letter. Each capital `A`..`Z` becomes its small letter, and every other character stays in place unchanged. |
| `JsString.ToLowerIdempotent` | components/shared/CallHistory/index.tsx:139 | Lower-casing a lower-cased string changes nothing. |
| `JsString.ToLowerFixedIff` | components/shared/CallHistory/index.tsx:139 | A string is its own lower case exactly when it has no upper-case letter. |
| `JsArray.ResolveIndex` | components/shared/CallHistory/index.tsx:104 | `slice` counts a negative index back from the end and clamps every index into `[0, length]`. An index past the end resolves to the length, and a negative index reaching before the start resolves to 0. |
| `JsArray.ResolveIndexShrinks` | components/shared/CallHistory/index.tsx:104 | Resolving two indices never moves them further apart than they were. |
| `JsArray.Slice` | components/shared/CallHistory/index.tsx:104 | `slice(start, end)` is the infix of the list that starts at the resolved start. Its length is the resolved end minus the resolved start, or 0 when the resolved end does not lie beyond the resolved start. When `start <= end` it is never longer than `end - start`. |
| `JsArray.SliceAdjacent` | components/shared/CallHistory/index.tsx:101-105 | Two slices that meet at the same non-negative index together form the slice that spans both. So consecutive pages join without a gap or overlap. |
| `JsArray.FlatMapAppend` | components/shared/CallHistory/ChatTranscript.tsx:75 | Filtering and classifying lines distributes over concatenation of the line list. |
| `Transcript.Opening` | components/shared/CallHistory/ChatTranscript.tsx:83-98 | An `AI:` line opens an AI message whose content is the trimmed remainder after 3 characters. Failing that, a `User:` line opens a User message with the trimmed remainder after 5 characters. |
| `Transcript.BlankOpensNothing` | components/shared/CallHistory/ChatTranscript.tsx:75 | A blank line can never open a message. |
| `Transcript.ContinueAddsLine` | components/shared/CallHistory/ChatTranscript.tsx:101 | A continuation keeps the speaker. Split at line feeds, the new content is the old content's lines followed by the lines of the trimmed text. |
| `Transcript.Feed` | components/shared/CallHistory/ChatTranscript.tsx:79-103 | One line never drops or alters a pushed message and pushes at most one. It pushes one exactly when the line opens a message while another is open. An opening line becomes the open message. A continuation line keeps the open message's presence and its speaker. |
| `Transcript.Close` | components/shared/CallHistory/ChatTranscript.tsx:105-108 | The final push keeps every pushed message. It adds exactly one message, the open one, at the end when one is open, and nothing otherwise. |
| `Transcript.ParseTranscript` | components/shared/CallHistory/ChatTranscript.tsx:72 | An empty transcript yields no messages. |
| `Transcript.TranscriptOfLines` | components/shared/CallHistory/ChatTranscript.tsx:72-75 | The early return for an empty transcript gives the same result as parsing its split, a single empty line that the filter drops. So every transcript is parsed line by line. |
| `Transcript.ParseLinesIsGrouped` | components/shared/CallHistory/ChatTranscript.tsx:79-110 | The `forEach` fold with its final push equals the group-by-group reference on every input. Each opener takes the following non-opening lines as continuation text, and lines before the first opener are skipped. |
| `Transcript.FeedAllSettled` | components/shared/CallHistory/ChatTranscript.tsx:84-87 | Once a message has been pushed, another message is always open. |
| `Transcript.SpeakersInOrder` | components/shared/CallHistory/ChatTranscript.tsx:83-108 | There is one message per line that opens one, and the messages' speakers are the opening lines' speakers in line order. In particular, the message count equals the number of opening lines. |
| `Transcript.TranscriptSpeakers` | components/shared/CallHistory/ChatTranscript.tsx:71-111 | The same count and order hold for a whole raw transcript, including the empty one. |
| `Transcript.BlankLineIgnored` | components/shared/CallHistory/ChatTranscript.tsx:75 | Inserting a whitespace-only line anywhere in the line list changes no message. |
| `Transcript.TranscriptBlankLineIgnored` | components/shared/CallHistory/ChatTranscript.tsx:75 | Inserting a whitespace-only line between two lines of a transcript changes no message. |
| `Transcript.AppendOpener` | components/shared/CallHistory/ChatTranscript.tsx:83-98 | A final opening line adds exactly its own message at the end and leaves the earlier ones alone. |
| `Transcript.AppendContinuation` | components/shared/CallHistory/ChatTranscript.tsx:99-102 | A final non-blank, non-opening line never adds a message. It extends the last message with a newline and its trimmed text, or it is dropped when no message exists yet. |
| `Transcript.LeadingLineDropped` | components/shared/CallHistory/ChatTranscript.tsx:99 | A line that opens nothing, placed before all others, is discarded. |
| `Transcript.TranscriptLeadingLineDropped` | components/shared/CallHistory/ChatTranscript.tsx:99 | A first transcript line without a speaker prefix is discarded. |
| `Transcript.FirstMessage` | components/shared/CallHistory/ChatTranscript.tsx:83-98 | An opening first line starts the first message, with its speaker and with content that begins with the prefix remainder. |
| `CallSearch.FilterCalls` | components/shared/CallHistory/index.tsx:73-83 | The filter keeps exactly the matching calls, each as often as in the input, as an order-preserving subsequence of the input. |
| `CallSearch.FilterSound` | components/shared/CallHistory/index.tsx:73-83 | A call survives the filter if and only if it is an input call that matches the term. |
| `CallSearch.MatchesIff` | components/shared/CallHistory/index.tsx:75-81 | A call matches exactly when the lower-cased term occurs somewhere in the lower-cased name, e-mail or summary, or in the phone number compared case-sensitively. |
| `CallSearch.EmptySearchKeepsAll` | components/shared/CallHistory/index.tsx:73-83 | An empty search term keeps every call, in order. |
| `CallSearch.FilterIdempotent` | components/shared/CallHistory/index.tsx:73-83 | Filtering the filtered list by the same term changes nothing. |
| `CallSort.ToggleSort` | components/shared/CallHistory/index.tsx:162-168 | The sort always switches to the chosen field. The direction becomes descending exactly when that same field was ascending. |
| `CallSort.ToggleStartsAscending` | components/shared/CallHistory/index.tsx:162-168 | Choosing a different field, or the same field while it is descending (as the initial date sort is), gives ascending order. |
| `CallSort.ToggleSameFieldFlips` | components/shared/CallHistory/index.tsx:162-168 | Choosing the same field twice flips the direction, and from then on the state alternates with period two. |
| `CallSort.FirstClickAscending` | components/shared/CallHistory/index.tsx:64-67 | The table opens sorted by date, descending. So the first click on any header, date included, sorts that field ascending. |
| `CallSort.Compare` | components/shared/CallHistory/index.tsx:86-98 | The grade, which is neither a string nor a number, compares equal. For cost, the comparison has the sign of the difference when ascending and the opposite sign when descending. |
| `CallSort.CompareTotal` | components/shared/CallHistory/index.tsx:89-97 | For any two calls, one of them may come before the other. |
| `CallSort.CompareTransitive` | components/shared/CallHistory/index.tsx:89-97 | "May come before" is transitive for every field and direction. |
| `CallSort.OrderIsTotalPreorder` | components/shared/CallHistory/index.tsx:86-98 | Given a collation that is a total preorder, the sort callback is a total preorder on calls. |
| `CallSort.SortCalls` | components/shared/CallHistory/index.tsx:85-99 | The sorted list is a permutation of the filtered list. |
| `CallSort.SortCallsSorted` | components/shared/CallHistory/index.tsx:85-99 | Every earlier call in the sorted list may come before every later one. |
| `CallSort.SortByCost` | components/shared/CallHistory/index.tsx:94-96 | Sorting by cost ascending gives non-decreasing costs. Descending gives non-increasing costs. |
| `CallSort.SortByText` | components/shared/CallHistory/index.tsx:91-93 | Sorting by a string field ascending follows the collation. Descending follows the reverse of the collation. |
| `CallSort.SortIdempotent` | components/shared/CallHistory/index.tsx:85-99 | Sorting the sorted list again changes nothing. |
| `CallSort.SortByGradeKeepsOrder` | components/shared/CallHistory/index.tsx:97 | Sorting on the grade compares every pair as equal, so the stable sort keeps the input order. |
| `StableSort.Insert` | components/shared/CallHistory/index.tsx:86 | Inserting an element adds exactly that element. |
| `StableSort.Sort` | components/shared/CallHistory/index.tsx:86 | The sort returns a permutation of its input. |
| `StableSort.InsertSorted` | components/shared/CallHistory/index.tsx:86 | Under a total preorder, inserting into an ordered list keeps it ordered. |
| `StableSort.SortSorted` | components/shared/CallHistory/index.tsx:86 | Under a total preorder, the sort's result is ordered. |
| `StableSort.SortKeepsSorted` | components/shared/CallHistory/index.tsx:86 | Because equal elements never swap, an input that is already ordered comes back unchanged. |
| `Pagination.Page` | components/shared/CallHistory/index.tsx:101-105 | Page `p` of size `s` holds at most `s` rows. For `p >= 1` it is the list from `(p-1)*s` to `(p-1)*s+s`, clipped to the list's length. |
| `Pagination.SliceFromNonNegative` | components/shared/CallHistory/index.tsx:104 | Slicing from a non-negative start is plain clipping to the list's length. |
| `Pagination.TotalPages` | components/shared/CallHistory/index.tsx:107 | The page count is the ceiling of `n / s`: zero for an empty list, and otherwise the least `k` with `k*s >= n`. |
| `Pagination.PagesPrefix` | components/shared/CallHistory/index.tsx:101-105 | Pages `1..k` laid end to end are the first `k*s` items of the list, clipped to its length. |
| `Pagination.PagesCoverList` | components/shared/CallHistory/index.tsx:101-107 | Concatenating pages `1..totalPages` reproduces the list exactly. |
| `Pagination.ItemOnPage` | components/shared/CallHistory/index.tsx:101-105 | Item `i` appears on page `i/s + 1`, in row `i mod s`. |
| `Pagination.PageBeyondLastIsEmpty` | components/shared/CallHistory/index.tsx:101-107 | Every page after the last one is empty. |
| `Pagination.FirstPageOnOpen` | components/shared/CallHistory/index.tsx:70-71 | On opening, page 1 of size 10 shows the first ten rows, or all rows when there are fewer. There is at most one page exactly when there are at most ten rows. |
| `Truncation.TruncateText` | components/shared/CallHistory/index.tsx:170-174 | A text of at most `k` space-separated words is returned unchanged. Otherwise the result is the first `k` words joined by single spaces, then `...`. A negative `k` drops words from the end, as `slice` does. |
| `Truncation.TruncatedIsPrefix` | components/shared/CallHistory/index.tsx:170-174 | When the text is cut, what precedes the ellipsis is a prefix of the text and splits back into exactly the first `k` words. |
| `Truncation.OneWordUntouched` | components/shared/CallHistory/index.tsx:171-172 | A text without spaces is never cut, however long it is. |
| `Truncation.SummaryCell` | components/shared/CallHistory/index.tsx:384 | A summary of at most 20 words is shown whole. A longer one shows a prefix of the summary holding exactly its first 20 words, followed by `...`. |
| `Badges.StatusColor` | components/shared/CallHistory/index.tsx:138-149 | The emerald, blue and rose badges go exactly to statuses whose lower case is `completed`, `in progress` and `failed`. Every other status gets the grey badge. |
| `Badges.StatusColorIgnoresCase` | components/shared/CallHistory/index.tsx:139 | Two statuses that differ only in letter case get the same badge. |
| `Badges.StatusExamples` | components/shared/CallHistory/index.tsx:138-149 | The statuses `Completed`, `In Progress` and `Failed` get the emerald, blue and rose badges, and any other status, such as `queued`, gets grey. |
| `Badges.GradeColor` | components/shared/CallHistory/index.tsx:151-160 | A true grade gets emerald, a false grade gets rose, and a null grade gets grey. |
| `Badges.GradeLabel` | components/shared/CallHistory/index.tsx:396-400 | The label is one of Pass, Fail or N/A. It is Pass exactly for true and N/A exactly for null. |
| `Badges.GradeBadgeConsistent` | components/shared/CallHistory/index.tsx:396-400 | The grade label and grade colour always agree. Pass shares the colour of a completed status, and Fail shares the colour of a failed status. |
| `AudioPlayer.PlayPause` | components/shared/CallHistory/index.tsx:109-136 | An empty url leaves the state unchanged. The loaded url toggles playing and keeps the url. Any other url gives playing with that url. |
| `AudioPlayer.Ended` | components/shared/CallHistory/index.tsx:124-126 | The `ended` event stops playback and keeps the loaded url. |
| `AudioPlayer.InitialValid` | components/shared/CallHistory/index.tsx:58-62 | The initial player holds no url, and no row shows pause. |
| `AudioPlayer.PlayPauseKeepsValid` | components/shared/CallHistory/index.tsx:111 | Because empty urls are ignored, the player never comes to hold one. |
| `AudioPlayer.ButtonToggles` | components/shared/CallHistory/index.tsx:431-436 | Pressing a row's button flips that row between play and pause, and every other row shows play. |
| `AudioPlayer.PressTwice` | components/shared/CallHistory/index.tsx:113-132 | Pressing the same button twice restores the state if that url was loaded. Otherwise the url stays loaded and paused. |
| `AudioPlayer.EndedThenPress` | components/shared/CallHistory/index.tsx:124-126 | After the recording ends no row shows pause, and pressing its button plays it again. |
| `CallTable.SortedCalls` | components/shared/CallHistory/index.tsx:73-99 | Filtering then sorting keeps each matching call as often as it occurs in the input, and drops every other call. |
| `CallTable.VisibleRows` | components/shared/CallHistory/index.tsx:101-105 | The rows on screen never exceed the page size, and each is an input call that matches the search. |
| `CallTable.PageCount` | components/shared/CallHistory/index.tsx:107 | The page count covers the filtered list, and it has no empty trailing page. |
| `CallTable.AllPagesShowMatches` | components/shared/CallHistory/index.tsx:73-107 | Paging through all pages shows each matching call exactly as often as it occurs in the input, no other call, and in sorted order. |
| `CallTable.EmptySearchShowsAll` | components/shared/CallHistory/index.tsx:73-107 | With an empty search box, the pages together show every call. |

## Left out

- `isNewCall` is left out because it reads the wall clock.
- `downloadAudio` is left out because it is fetch and DOM I/O.
- Date formatting is left out because it calls an external date library.
- The `Audio` element's `play`/`pause` calls are left out because they are side effects. The player is modelled as its `{isPlaying, currentUrl}` record only.
- Markup, the details slide-over, `onCallClick` and the empty-table message are left out as presentation only.
- The pagination controls are not part of this model. The page number and page size are taken as given integers.
- The route handlers, the data service, the hooks and the database client are not part of this model. They are proxies and plumbing around a hosted database.
- `JsString.ToLower`: lower-cases ASCII letters only, while `toLowerCase` maps all of Unicode. For the three status words this gives the same badges. For the search filter it differs on non-ASCII letters, for example the Kelvin sign, which JavaScript lower-cases to `k`.
- `localeCompare` is a parameter `collate`, because locale collation belongs to the platform. The sort's order lemmas require only that `collate` is a total preorder (`CallSort.IsCollation`).
- `CallSort.SortCallsSorted`: holds only for a collation that is a total preorder. The source relies on `localeCompare` being one.
- `cost` is an integer rather than a floating-point number. NaN and rounding are not modelled.
- `Pagination.TotalPages`: requires a positive page size. With size 0, `Math.ceil` gives `Infinity` or `NaN`, which an integer cannot hold.
- Strings are sequences of Unicode scalar values, not UTF-16 code units. The prefixes `AI:` and `User:` are ASCII, so `substring(3)` and `substring(5)` agree.
- Sort keys are limited to the ten modelled record fields. The table's headers call `handleSort` only with `date`, `cost` and `duration` (index.tsx:246, 258, 270), so only those sorts can be reached. The model covers all ten fields anyway.
- `CallSort.Compare`: each field has one fixed type, so the source's "neither both strings nor both numbers" case arises only for the grade.
- `StableSort.Sort`: is stable by construction, but stability is proved only in two forms: already ordered input is unchanged, and a sort on the grade keeps the input order. A general stability theorem is not stated.
