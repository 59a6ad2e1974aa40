# Meeting notes heuristics and archive filter, in Dafny

This project is a verified model of the two pieces of logic in the meeting-notes app that are not rendering.

- **The fixture path of the AI service** (`src/services/ai/AIService.ts`). These are the text heuristics that stand in for a language model:
  - a chat thread is flattened into `user: message` lines;
  - a meeting record is extracted from free text: key points, attendees from a fixed roster, and action items found by marker keywords;
  - issues are generated from meeting notes: keyword lines, titles cut to 50 characters, ids numbered from the clock;
  - tags are assigned by keyword buckets, with a `general` default.
- **The meeting archive page** (`src/pages/MeetingArchive.tsx`):
  - the filter pipeline (search term, source type, month) over the loaded meetings;
  - the rule that picks the list on display;
  - the counts shown above the list;
  - the display names of the source types.

Every `Math.random()` draw and every `Date.now()` reading is an input of the model. Each generated item takes one record of draws (`ActionDraw`, `IssueDraw`), in the order the source evaluates them. A draw is a real number in [0, 1). `Math.floor(d * 4)` and `Math.floor(d * 8)` are exact in floating point too, because the factors are powers of two.

Strings are sequences of code points. The string primitives the heuristics use are defined once, in module `Text`:
- `split('\n')` and `join('\n')`;
- `includes` and `startsWith`;
- `trim`, with the ECMAScript whitespace set;
- an ASCII-only `toLowerCase`.

Module layout:
- `Seqs`: `filter`, `slice(0, n)`, and the subsequence relation.
- `Text`: the string primitives.
- `MeetingTypes`: the record shapes of `src/types/Meeting.types.ts`.
- `AIService`: the heuristics.
- `MeetingArchive`: the page logic. `ArchiveView` is a class whose fields are the page's React state. Its `FilterMeetings` narrows a local list step by step, as the source does. It is proved to store the one-pass `FilterResult`.

Blank or empty text is not rejected: it yields a record with no key points, the placeholder attendees and no action items.

## Model

| member | source | states |
|---|---|---|
| Seqs.Filter | src/pages/MeetingArchive.tsx:37-55 | `Array.prototype.filter`: the result is no longer than the input, holds only input elements that pass the test, and holds every input element that passes it |
| Seqs.FilterIsSubsequence | src/pages/MeetingArchive.tsx:37-55 | filtering keeps the input order and adds nothing |
| Seqs.FilterFilter | src/pages/MeetingArchive.tsx:37-55 | two filters in a row are one filter by the conjunction of their tests |
| Seqs.FilterCommute | src/pages/MeetingArchive.tsx:37-55 | the order of two filters does not matter |
| Seqs.FilterNoDup | src/services/ai/AIService.ts:244 | filtering a duplicate-free list gives a duplicate-free list |
| Seqs.Take | src/services/ai/AIService.ts:177 | `slice(0, n)` has length `min(n, length)` and is a prefix of the list |
| Text.Trim | src/services/ai/AIService.ts:169 | `trim()` removes only whitespace, and only at the two ends: the result occurs in the string at some index, and everything before and after that occurrence is whitespace; it is empty exactly when the string is all whitespace; otherwise it starts and ends with non-whitespace |
| Text.Lower | src/pages/MeetingArchive.tsx:39-42 | `toLowerCase()` keeps the length, maps each ASCII capital to its small letter, keeps every other code point, and leaves no ASCII capital |
| Text.LowerIdempotent | src/pages/MeetingArchive.tsx:39-42 | lower-casing twice is lower-casing once |
| Text.TrimIdempotent | src/services/ai/AIService.ts:255 | trimming twice is trimming once |
| Text.ContainsIff | src/services/ai/AIService.ts:244 | `includes` holds exactly when the block occurs at some index |
| Text.ContainsTransitive | src/services/ai/AIService.ts:244 | a block of a block of a string is a block of the string |
| Text.Split | src/services/ai/AIService.ts:169 | `split('\n')` gives at least one piece, and no piece holds a line feed |
| Text.JoinSplit | src/services/ai/AIService.ts:104 | joining the pieces of a split by line feeds gives back the text |
| Text.SplitJoin | src/services/ai/AIService.ts:104 | splitting the join of line-feed-free lines (at least one) gives back the lines |
| Text.JoinContainsLine | src/services/ai/AIService.ts:104 | each joined line is a block of the joined text |
| AIService.AssignRandomMember | src/services/ai/AIService.ts:262-265 | the assignee drawn for any draw in [0, 1) is one of the four members |
| AIService.MemberBand | src/services/ai/AIService.ts:262-265 | the draws in [k/4, (k+1)/4) pick member k, so every member can be drawn |
| AIService.AssignRandomPriority | src/services/ai/AIService.ts:267-270 | the priority is low for draws below 1/4, medium for [1/4, 1/2), high for [1/2, 3/4) and critical from 3/4 on, each band both ways |
| AIService.PriorityBand | src/services/ai/AIService.ts:267-270 | the draws in [k/4, (k+1)/4) pick priority k of low, medium, high, critical |
| AIService.EstimateHours | src/services/ai/AIService.ts:201 | `Math.floor(Math.random() * 8) + 1` lies in 1..8 |
| AIService.HoursBand | src/services/ai/AIService.ts:201 | the draws in [(h-1)/8, h/8) give h hours, so every value 1..8 can occur |
| AIService.ExtractParticipants | src/services/ai/AIService.ts:242-246 | never empty and duplicate-free; when some roster name occurs in the text, the result is the occurring roster names in roster order, and a roster name is present exactly when the text includes it; otherwise the two placeholders |
| AIService.StripMarkers | src/services/ai/AIService.ts:255 | the global replace of the markers and of `-` only deletes code points (the result is a subsequence of the line) and leaves no hyphen at all |
| AIService.StripMarkersKeeps | src/services/ai/AIService.ts:255 | every code point that is not part of a marker or a hyphen occurs in the result exactly as often as in the line |
| AIService.StripLeadingMarker | src/services/ai/AIService.ts:255 | a `담당:`, `할당:`, `TODO:` or `-` at the front of a line is deleted and nothing after it: the rest is stripped as if it stood alone |
| AIService.StripMarkersPlain | src/services/ai/AIService.ts:255 | a line with no hyphen and no marker is left unchanged |
| AIService.StripMarkersOnePass | src/services/ai/AIService.ts:255 | the replace is a single pass: `T-ODO:` becomes `TODO:`, which still holds a marker |
| AIService.ExtractActionItems | src/services/ai/AIService.ts:248-260 | exactly `min(2, k)` items for the k lines that include a marker, in line order; each description is the stripped and trimmed line, holds no hyphen and has no whitespace at either end; priority medium; the assignee is the member drawn by the item's own member draw; due seven days after the item's clock reading |
| AIService.ContentLinesIff | src/services/ai/AIService.ts:169 | some line has content after `trim` exactly when the text has a non-whitespace code point |
| AIService.MockMeetingExtraction | src/services/ai/AIService.ts:166-185 | fixed title and conclusion; the key points are the first `min(3, n)` lines with content, in order, and they are present exactly when the text has non-whitespace; the attendees are those of `extractParticipants`, never empty; at most two action items |
| AIService.ThreadContentLines | src/services/ai/AIService.ts:103-106 | splitting the flattened thread gives exactly one `user: message` line per message, in message order, when no user or message holds a line feed; an empty thread is one empty line |
| AIService.ProcessSlackThread | src/services/ai/AIService.ts:103-106 | the thread text goes through the meeting extraction: fixed title and conclusion, the attendees of that text (never empty) and its action items; when no user or message holds a line feed, the key points are the first three `user: message` lines, in message order |
| AIService.ThreadKeyPoints | src/services/ai/AIService.ts:103-106 | with no line feed inside a user or message, every `user: message` line has content, so the lines with content are exactly the thread lines |
| AIService.ThreadPosterIsAttendee | src/services/ai/AIService.ts:103-106 | a roster member who posted in the thread is among the extracted attendees |
| AIService.ExtractTags | src/services/ai/AIService.ts:272-289 | the loop that pushes each bucket's name in bucket order computes `Tags` |
| AIService.TagsSpec | src/services/ai/AIService.ts:272-289 | the tags are never empty and duplicate-free; they are `['general']` exactly when no bucket keyword occurs; otherwise they are bucket names in bucket order, and a bucket's name is present exactly when the text includes one of its keywords |
| AIService.MatchedTagsSpec | src/services/ai/AIService.ts:281-286 | for any buckets with distinct names, the matched names are a duplicate-free subsequence of the bucket names, and a name is matched exactly when its bucket's keywords occur |
| AIService.IssueTitle | src/services/ai/AIService.ts:197 | the title is at most 50 long; it is the line itself exactly when the line is at most 50 long; otherwise it is the first 47 code points of the line followed by `...` |
| AIService.IssueTitleIdempotent | src/services/ai/AIService.ts:197 | a title taken as a line gives the same title |
| AIService.MockIssueExtraction | src/services/ai/AIService.ts:187-218 | exactly `min(3, k)` issues for the k lines that mention one of the eight keywords, in line order; each issue's id is its clock reading plus its index; its title is the cut line (at most 50 long); its description is the fixed lead plus the line; its assignee, priority and estimate are those drawn by the issue's own member, priority and hours draws (a member; 1..8 hours); its tags are those of the line; it is `todo`, auto-generated and sourced from the meeting analysis |
| AIService.IssueIdsDistinct | src/services/ai/AIService.ts:195-196 | when the clock does not run backwards, the ids of one batch are strictly increasing, hence pairwise distinct |
| MeetingArchive.ArchiveView.constructor | src/pages/MeetingArchive.tsx:27-31 | nothing loaded, nothing filtered, no search term, both selectors on `all`, and the filtered list agrees with the filters |
| MeetingArchive.ArchiveView.FilterMeetings | src/pages/MeetingArchive.tsx:34-58 | applying the active filters one after the other (search, source, month) stores exactly the meetings that pass every active filter, in one pass |
| MeetingArchive.ArchiveView.LoadMeetings | src/pages/MeetingArchive.tsx:60-77 | the loaded list replaces the meetings, the filters are kept, and the filtered list is brought up to date |
| MeetingArchive.ArchiveView.SetSearchTerm | src/pages/MeetingArchive.tsx:29 | a new search term, everything else kept, and the filtered list brought up to date |
| MeetingArchive.ArchiveView.SetSelectedSource | src/pages/MeetingArchive.tsx:30 | a new source selection, everything else kept, and the filtered list brought up to date |
| MeetingArchive.ArchiveView.SetSelectedMonth | src/pages/MeetingArchive.tsx:31 | a new month selection, everything else kept, and the filtered list brought up to date |
| MeetingArchive.FilterResult | src/pages/MeetingArchive.tsx:34-58 | the stored list is no longer than the meetings, and a meeting is on it exactly when it is loaded and passes every active filter |
| MeetingArchive.FilterResultIsSubsequence | src/pages/MeetingArchive.tsx:34-58 | the filter result keeps the order of the meetings and adds nothing |
| MeetingArchive.NoFilterKeepsAll | src/pages/MeetingArchive.tsx:37-56 | with no search term and both selectors on `all`, every meeting is kept |
| MeetingArchive.FilterResultMembership | src/pages/MeetingArchive.tsx:37-55 | a meeting is kept exactly when it is loaded and passes each active test: the lower-cased term occurs in the lower-cased title, content or some attendee; its source type equals the selected one; its date starts with the selected month |
| MeetingArchive.FilterOrderIrrelevant | src/pages/MeetingArchive.tsx:37-56 | applying the filters in the opposite order (month, source, search) gives the same list |
| MeetingArchive.UnknownSourceKeepsNothing | src/pages/MeetingArchive.tsx:47-49 | a selected source that is none of `slack`, `voice`, `manual` keeps nothing |
| MeetingArchive.DisplayMeetings | src/pages/MeetingArchive.tsx:201-203 | the list on display is never empty: the filtered list when it is non-empty; otherwise the built-in list when nothing is loaded; otherwise all loaded meetings. Hence the "no meetings" card at line 411 never renders |
| MeetingArchive.DisplayFromLoaded | src/pages/MeetingArchive.tsx:201-203 | once meetings are loaded, the list on display is drawn from them in order, and it is either all of them or only meetings that pass the active filters |
| MeetingArchive.NoMatchShowsAll | src/pages/MeetingArchive.tsx:201-203 | when meetings are loaded and none passes the filters, the filtered list is empty and every loaded meeting is on display |
| Seqs.FilterCount | src/pages/MeetingArchive.tsx:207-210 | the length of a filtered list is the number of positions whose element passes the test |
| MeetingArchive.CountsArePositions | src/pages/MeetingArchive.tsx:207-210 | each count is the number of positions on the list dated in the current month, or holding slack, voice or manual |
| MeetingArchive.SourceCountsAddUp | src/pages/MeetingArchive.tsx:208-210 | the slack, voice and manual counts add up to the length of the list |
| MeetingArchive.ComputeStats | src/pages/MeetingArchive.tsx:205-211 | the total is the length of the list on display; the month count is the number of its meetings whose date starts with `2024-07`; the slack, voice and manual counts are the numbers of its meetings with that source type; the three source counts add up to the total and the month count does not exceed it |
| MeetingArchive.SourceText | src/pages/MeetingArchive.tsx:93-100 | any string other than the three source names is shown as it is |
| MeetingArchive.SourceTextDistinguishes | src/pages/MeetingArchive.tsx:93-100 | the three source types get three different display names, none of them the stored name |

## Left out

- The language-model path is not modelled: `callOpenAI`, the Whisper branch of `transcribeVoice`, the HTTP client and `JSON.parse` of the reply. These are network calls.
- The dispatch in `extractMeetingFromText`, `extractIssuesFromMeeting` and `transcribeVoice` is not modelled. It reads environment flags and chooses between the fixture path and the network. The model is the fixture path.
- `mockVoiceTranscription` is not modelled: it returns a canned text built around the file name.
- The promise and timer shells (`setTimeout`, `fixtureDelay`) are not modelled. The `success` and `processingTime` fields they add are left out too. Only the `data` part of each result is modelled.
- AIService.ExtractActionItems: the due date is the millisecond timestamp seven days after the clock reading. Its `toISOString().split('T')[0]` rendering as a calendar date is not modelled.
- AIService.MockIssueExtraction: the id is the number `Date.now() + index`. Its `toString()` rendering is not modelled, but that rendering is injective, so distinct ids stay distinct.
- AIService.IssueIdsDistinct: distinctness is proved only for a clock that does not run backwards within one batch, which is an assumption about `Date.now()`.
- AIService.ExtractActionItems and AIService.MockIssueExtraction require at least as many draw records as the largest number of items (2 and 3). The source has no such demand; it draws as it goes.
- String lengths count code points. JavaScript counts UTF-16 code units. The two agree on text in the Basic Multilingual Plane, which includes Korean and ASCII. `IssueTitle` differs from the source only for lines with characters outside that plane.
- Case folding: `toLowerCase` is modelled for the ASCII letters only. Other scripts that have case are not lower-cased here; Korean has no case.
- The React effects are not modelled as such. `LoadMeetings` and the setters run the filter immediately, which stands for the effect that runs after every change of its inputs. The `loading` flag and the error logging of `loadMeetings` are left out. The meeting service that supplies the data is a parameter.
- The page's icons, colours and JSX (`getSourceIcon`, `getSourceColor`, the tabs and cards) are not modelled. They are presentation only.
