# Play-queue controller of a media-streaming chat bot

The bot streams video files from a media library to an RTMP endpoint and
lets chat users steer playback. Its heart is `PlayQueue`: a FIFO of queued
items, the item currently loaded into the media pipeline, and the pipeline
itself, whose lifecycle state is one of `Null`, `Ready`, `Paused` or
`Playing`. Every controller operation first looks at the pipeline state,
then changes the queue, the current item and the pipeline. This project
models that controller, the pipeline primitives it rests on, and the pieces
of logic around it in the chat handlers and the media-library client:

- `GStreamer.dfy`: the pipeline as a class (`state`, the source element's
  `uri`, the playback `position` in whole seconds, and whether a source
  element exists), its primitives (`StartPipeline`, `StopPipeline`,
  `PausePipeline`, `SeekPipeline`, `SetSourceUri`), queue items, and the
  `PlayQueue` class with every controller operation as a method. A ghost
  `Valid()` invariant says that ids were handed out before and are never
  queued twice, and that the current item's id is not queued. Every method
  keeps it.
- `VideoCommands.dfy`: episode labels, pagination of long select menus with
  Back/Next entries, reading a seek button's custom id, and the
  queue-selector options with the removal that picking one triggers.
- `EmbyClient.dfy`: the stable in-place sort of an items listing by episode
  number, the two string-or-int scalar normalisers, and the guard and
  request path of an item search.
- `Text.dfy`: the parts of Rust's standard library the code relies on.
  These are decimal printing, `parse::<u32>` and `parse::<i64>`, and
  `split`/`join` on a character, with their round trips proved.
- `Wrappers.dfy`: `Option`, `Result`, and `Outcome` (a `Result<(), E>`).

The pipeline's `set_state` calls can fail, and the model does not decide
when. The caller passes a `Verdicts` value saying which target states the
pipeline accepts during that call. A seek's acceptance is a boolean of the
same kind. Item ids stand for random UUIDs and are drawn from a counter
(`nextId`), which is enough for their only use: telling items apart.

Behaviour of the code worth knowing, which the model keeps:

- `start_playback` from `Ready` does nothing and returns the current item.
  It does not start the pipeline.
- When `start_pipeline` fails after the next item's URI was set, that item
  is not pushed back. It stays the current item while the pipeline may
  still be `Null`. So "a current item implies a non-`Null` pipeline" is not
  an invariant of the code, and the model does not claim it.
- `generate_episode_name` treats the item type as optional (`unwrap_or`),
  while the record declaration in `src/embyclient.rs` has a plain string.
  The model keeps it optional, which covers both.
- `seek_video` returns no position; the model returns an `Outcome`.

## Model

| member | source | states |
|---|---|---|
| GStreamer.GetValueOrError | src/gstreamer.rs:34-36 | Ok exactly when the option holds a value, and then that value; otherwise the given error |
| GStreamer.Pipeline.constructor | src/gstreamer.rs:75-86 | a fresh pipeline is `Null`, has no URI and sits at position 0 |
| GStreamer.SetState | src/gstreamer.rs:289-292 | a state change succeeds exactly when the pipeline accepts the target; on success the state is the target; a failure leaves state and position alone; the URI never changes |
| GStreamer.StartPipeline | src/gstreamer.rs:283-294 | refused when already Playing, when there is no source element, or when no URI is set, each leaving the pipeline unchanged; otherwise goes through Ready (unless Paused) to Playing and returns the URI; a refused step reports that target |
| GStreamer.SeekPipeline | src/gstreamer.rs:296-315 | refused unless Playing, and without a source element; otherwise the position becomes the clamped target when the seek is accepted, and stays as it was when it is not; state and URI never change |
| GStreamer.StopPipeline | src/gstreamer.rs:317-321 | succeeds exactly when Ready and then Null are accepted, ending Null at position 0; a refusal of Ready changes nothing, a refusal of Null leaves the pipeline Ready |
| GStreamer.PausePipeline | src/gstreamer.rs:323-329 | refused unless Playing, leaving the state alone; from Playing, Paused when accepted; position and URI kept |
| GStreamer.SetSourceUri | src/gstreamer.rs:331-336 | with a source element the URI becomes the given one; without one it fails and nothing changes; state and position kept |
| GStreamer.SeekTarget | src/gstreamer.rs:304-308 | the position after a seek is current + delta, clamped at 0; it never moves against the delta's direction |
| GStreamer.SeekTargetAsWritten | src/gstreamer.rs:304-308 | the position as the u64 arithmetic of the code computes it: congruent to current + delta modulo 2^64 and below 2^64 |
| GStreamer.SeekTargetsAgreeWithoutWrap | src/gstreamer.rs:304-308 | when current + delta stays within 0 and 2^64, the code's arithmetic and the clamped target agree |
| GStreamer.SeekPastStartWraps | src/gstreamer.rs:304-308 | a backward seek past the start makes the code's `new_pos` 2^64 + current + delta, past the current position (a value the seek then cannot convert to nanoseconds), while the clamped target is 0 |
| GStreamer.SeekBackThirtyFromTen | src/gstreamer.rs:304-308 | seeking back 30 s from 10 s gives 0xFFFF_FFFF_FFFF_FFEC as the code's `new_pos` and 0 when clamped |
| GStreamer.NormalizeUri | src/gstreamer.rs:115-121 | a path starting with '/' becomes `file://` + path; any other text is used as given |
| GStreamer.AbsolutePathIsUrl | src/gstreamer.rs:116-122 | an absolute path always gives a parsable URL, so adding one never panics |
| GStreamer.Without | src/gstreamer.rs:128-131 | removal by id keeps no item with that id and never grows the queue |
| GStreamer.WithoutAppend | src/gstreamer.rs:128-131 | removal distributes over concatenation, so it keeps the relative order of the kept items |
| GStreamer.WithoutMembership | src/gstreamer.rs:128-131 | an item survives removal exactly when it was queued and has a different id |
| GStreamer.WithoutAbsent | src/gstreamer.rs:128-131 | removing an id that is not queued leaves the queue unchanged |
| GStreamer.RemoveOneOfDistinct | src/gstreamer.rs:128-131 | with distinct ids, removing the id of the k-th item removes exactly that item |
| GStreamer.RetainKeepsDistinct | src/gstreamer.rs:128-131 | removal keeps queued ids distinct |
| GStreamer.PlayQueue.constructor | src/gstreamer.rs:75-86 | a new controller has an empty queue and no current item, and satisfies the invariant |
| GStreamer.PlayQueue.AddUri | src/gstreamer.rs:114-125 | appends exactly one item at the tail with the normalised URI, the given name and an id used nowhere else, and returns it; the earlier items and the current item are unchanged |
| GStreamer.PlayQueue.RemoveUri | src/gstreamer.rs:128-131 | always succeeds; the queue becomes the old queue without the items of that id; the current item is unchanged |
| GStreamer.PlayQueue.GetQueueItems | src/gstreamer.rs:133-135 | returns the queued items in queue order |
| GStreamer.PlayQueue.GetCurrentItem | src/gstreamer.rs:137-139 | returns the current item |
| GStreamer.PlayQueue.QueueNextItem | src/gstreamer.rs:141-157 | an empty queue fails with no change; if setting the source fails, the head is pushed back and queue, current item and pipeline are as before; otherwise the head becomes the current item, the queue is the old tail and the pipeline's URI is the head's |
| GStreamer.PlayQueue.StartPlayback | src/gstreamer.rs:160-178 | from Null dequeues the head and starts the pipeline, returning the item; from Paused resumes without touching the queue; from Ready or Playing changes nothing and returns the current item; every failure gives its error (no items, no source element, unset URI, the refused step) and the state it leaves |
| GStreamer.PlayQueue.StopPlayback | src/gstreamer.rs:180-191 | from Null a successful no-op; otherwise drives the pipeline to Null through Ready and clears the current item, or fails with the refused step's error (Ready: state and position kept; Null: left at Ready, position 0) with the current item kept; the queue never changes |
| GStreamer.PlayQueue.PausePlayback | src/gstreamer.rs:193-204 | refused unless Playing, with the state kept; from Playing, Paused when accepted, otherwise the refused Paused step's error with Playing kept; queue and current item untouched |
| GStreamer.PlayQueue.SkipVideo | src/gstreamer.rs:206-216 | a failed stop fails with the refused step's error and leaves queue, current item and source URI as they were, the pipeline where the stop left it; after a stop, an empty queue fails and a failed source keeps the queue, both with the pipeline at Null and its URI unchanged; otherwise the head becomes current, the queue is the tail, and the pipeline plays exactly when Ready and Playing are accepted, each refusal giving its error and the state it leaves |
| GStreamer.PlayQueue.SeekVideo | src/gstreamer.rs:218-227 | refused unless Playing; without a source element fails with that error and the position kept; otherwise the position moves to the clamped target when accepted and a refused seek gives its error; state and URI kept |
| GStreamer.PlayQueue.HandleEndOfStream | src/gstreamer.rs:88-111 | an end of stream skips to the next item and ignores a failure: a refused stop keeps queue, current item and URI; an empty queue or a missing source keeps the queue with the pipeline at Null; otherwise the head becomes current and the pipeline state after each refused start step is stated; the queue never gains items |
| VideoCommands.GenerateEpisodeName | src/video_commands.rs:754-770 | the caption is the watched marker, then "Movie - name" for a movie (a missing type is not a movie) and "S<season>E<episode> - name" otherwise |
| VideoCommands.EpisodeNameShowsState | src/video_commands.rs:755-764 | the caption opens with a green circle for played, a red one for unplayed, nothing without user data, and that state reads back from it; it closes with " - " and the name |
| VideoCommands.PageInRange | src/video_commands.rs:780-789 | a page number within the page count starts inside the list and holds at most 23 items |
| VideoCommands.PaginateResult | src/video_commands.rs:772-808 | 25 results or fewer come back unchanged; a page number past the page count is an error; otherwise Ok exactly when the page's items exist, and then the page is the Back entry (after page 1), the page's items and the Next entry (before the last page), at most 25 options, with the total kept |
| VideoCommands.EveryItemOnOnePage | src/video_commands.rs:780-796 | every item of a long menu lies on exactly one page, number i / 23 + 1 |
| VideoCommands.PageFromValue | src/video_commands.rs:496-500 | a page is read only from a value starting with "page_", and is a u32 |
| VideoCommands.PageValueRoundTrip | src/video_commands.rs:782-802 | the value `page_<n>` of a navigation entry reads back as page n |
| VideoCommands.NavigationLeadsToNeighbours | src/video_commands.rs:782-802 | the Back entry leads to page n-1 and the Next entry to page n+1 |
| VideoCommands.SeekRequest | src/video_commands.rs:327-364 | no seek exactly when the last '_'-separated part does not read as a non-zero i64; a requested seek is never by 0 |
| VideoCommands.SeekAmountFromId | src/video_commands.rs:327-364 | the handler's step-by-step parse issues a seek exactly when the id asks for one, by the signed amount it asks for, and otherwise has amount 0 |
| VideoCommands.SplitSeekId | src/video_commands.rs:180-196 | a button id falls apart on '_' into its prefix, "seek", the direction and the amount |
| VideoCommands.SeekButtonIdParts | src/video_commands.rs:180-196 | a seek button's id splits on '_' into the interaction id, "seek", the direction and the seconds |
| VideoCommands.SeekButtonRoundTrip | src/video_commands.rs:180-196 | every seek button's id reads back as its number of seconds, negated for "minus" |
| VideoCommands.QueueSelectorOptions | src/video_commands.rs:853-869 | an empty queue gives the single option "No items in queue!" / "empty"; otherwise the k-th option is the k-th item's name and id |
| VideoCommands.QueueSelection | src/video_commands.rs:389-411 | the placeholders "empty" and "unknown" name no item |
| VideoCommands.SelectingAnOptionRemovesThatItem | src/video_commands.rs:389-411 | the k-th option is the k-th item's name and id; picking it removes exactly the k-th item; the empty-queue placeholder removes nothing |
| EmbyClient.EpisodeKey | src/embyclient.rs:67-68 | the sort key is a u32 episode number, 0 when it is missing or does not read |
| EmbyClient.EpisodeKeyOfPrinted | src/embyclient.rs:67-68 | an episode number printed in decimal sorts under that number |
| EmbyClient.WithKey | src/embyclient.rs:64-72 | the items with one key, in order, never more than the listing holds |
| EmbyClient.WithKeyAppend | src/embyclient.rs:64-72 | the items with one key of two listings end to end are those of the first, then those of the second |
| EmbyClient.MovedSorted | src/embyclient.rs:66-70 | moving entry i of a listing sorted before i to just after the last smaller-or-equal key, past exactly the greater keys, leaves the first i+1 entries sorted |
| EmbyClient.MovedKeepsItems | src/embyclient.rs:66-70 | such a move neither adds nor loses an item and leaves the entries after i in place |
| EmbyClient.MovedKeepsRuns | src/embyclient.rs:64-72 | moving an entry past only greater keys keeps the order of the items within every key |
| EmbyClient.InsertionPassKeeps | src/embyclient.rs:64-72 | one insertion pass keeps the three promises of the sort: a longer sorted prefix, the same items, the same order within each key |
| EmbyClient.SwapWithPrevious | src/embyclient.rs:66-70 | the array after the swap is the old contents with the two neighbours exchanged |
| EmbyClient.InsertByKey | src/embyclient.rs:66-70 | one insertion pass swaps entry i down while its left neighbour has a greater key: it ends just after a smaller-or-equal key (or at the front), having passed exactly the entries with greater keys |
| EmbyClient.GetSortedItems | src/embyclient.rs:64-72 | the result is sorted by episode key, a permutation of the items, and stable (same order within each key); the listing itself is a value and is not changed |
| EmbyClient.StringOrInt | src/embyclient.rs:318-354 | an integer becomes its decimal text, a string is kept; anything else is an error |
| EmbyClient.IntIdReadsBack | src/embyclient.rs:331-343 | the decimal text of an integer id parses back to that integer |
| EmbyClient.OptionStringOrInt | src/embyclient.rs:356-407 | None exactly for none and unit, Some of the string-or-int text for integers and strings, an error otherwise |
| EmbyClient.TypeNames | src/embyclient.rs:135 | one name per requested type, in order |
| EmbyClient.SearchItemsRequest | src/embyclient.rs:131-136 | an empty name fails before any request; otherwise the request path has the fixed prefix and ends with the search term |
| EmbyClient.TypeListNamesTypes | src/embyclient.rs:135 | the comma-joined type list splits back into the requested type names |
| Text.NatToString | src/embyclient.rs:331-343 | the decimal text of a number is non-empty and all digits, "0" for zero and without a leading zero otherwise |
| Text.IntToString | src/embyclient.rs:331-337 | a negative number prints as '-' and its magnitude |
| Text.ParseNat | src/video_commands.rs:404 | succeeds exactly on a non-empty run of digits |
| Text.ParseU32 | src/embyclient.rs:67-68 | a parsed u32 is at most 2^32 - 1 |
| Text.ParseI64 | src/video_commands.rs:329-343 | a parsed i64 lies in the 64-bit signed range |
| Text.DigitsValueOfNatToString | src/embyclient.rs:331-343 | the digits of a printed number denote that number |
| Text.ParseNatOfNatToString | src/video_commands.rs:404 | printing a number and parsing it back gives the number |
| Text.ParseU32OfNatToString | src/video_commands.rs:496-500 | a printed u32 parses back as a u32 |
| Text.ParseI64OfMinus | src/video_commands.rs:329-343 | a '-' before a run of digits parses as minus their value when that lies in range |
| Text.ParseI64OfIntToString | src/video_commands.rs:329-343 | a printed i64 parses back as an i64 |
| Text.IndexOf | src/video_commands.rs:328 | the first occurrence of a character |
| Text.Split | src/video_commands.rs:328 | splitting gives at least one piece, at least two when the separator occurs, and no piece holds the separator |
| Text.JoinOfSplit | src/video_commands.rs:328 | joining the pieces of a split gives back the text |
| Text.SplitCons | src/video_commands.rs:328 | splitting a separator-free piece, a separator and a rest gives the piece, then the pieces of the rest |
| Text.SplitOfJoin | src/embyclient.rs:135 | splitting a join of separator-free pieces gives back the pieces |

## Left out

- Building the GStreamer graph (`get_rtmp_pipeline`, `configure_encodebin_rtmp`, the pad-added closure) is left out. It is foreign element wiring with no behaviour of its own; a pipeline is a `Pipeline` value with or without a source element.
- `add_eos_watch` is an async loop over the bus under a tokio mutex. Only its effect per end-of-stream message is modelled (`HandleEndOfStream`); concurrency and the mutex are not.
- GStreamer.SetState: a refused `set_state` is taken to leave the pipeline in the state it was in. Real GStreamer moves one step at a time and stops at the last state it reached, so a refused Ready-to-Playing change can leave it Paused, and a refused Playing-to-Ready change can leave it Paused too. Every "a refusal leaves state X" clause of StartPipeline, StopPipeline, StartPlayback, StopPlayback, SkipVideo and HandleEndOfStream rests on this assumption; in particular, after a start that failed at the Playing step the real pipeline may be Paused, and the next `start_playback` would then resume it, where the model (at Ready) does nothing.
- GStreamer itself: a `set_state` that reports success but completes asynchronously is not modelled. A reset to position 0 on reaching Ready or Null is assumed. Positions are whole seconds, since the code reads `.seconds()`.
- GStreamer.SeekPipeline: a failing `query_position` is not modelled (the position is always known). Neither is the overflow of `current + delta` past 2^64, or of `ClockTime::from_seconds`, on a forward seek.
- GStreamer.PlayQueue.AddUri: the code unwraps `Url::parse` and panics on text it rejects; the model requires `IsUrl` instead. `IsUrl` checks only for a scheme followed by ':', so it is a necessary condition of a successful parse, not a sufficient one: "http://" satisfies it, while `Url::parse` rejects it (empty host) and the code panics. URL normalisation is not modelled either: the item keeps the text as given (or `file://` + path), where the code stores the parsed URL's form, with a lower-cased scheme and host, an added "/" path, percent-encoding by `from_file_path`, and the "." and empty components of a file path dropped.
- UUID generation is a counter; only distinctness is used.
- Completion callbacks passed by the callers of `add_uri` are not part of the shown controller and are left out.
- VideoCommands.PaginateResult: the paging library's `Pages` is taken to count ceil(total / 23) pages, with page i spanning items 23·i to min(23·i + 23, total) - 1. Its source is not part of this model. `page_number + 1` is not checked for u32 overflow, which would need about 10^11 items.
- VideoCommands.PageFromValue: the code panics (`expect`) on a page value that does not read as a u32; the model returns None.
- VideoCommands.QueueSelection: the code panics (`unwrap`) on a value that is not a UUID; the model returns None.
- VideoCommands.SeekAmountFromId: the `None` branches of `last()` and `get(len - 2)` never run for an id containing "_seek_", so the precondition excludes them. The product of sign and amount is unbounded, while in the code `-1 * i64::MIN` would overflow.
- VideoCommands.GenerateEpisodeName: the code unwraps the season and episode numbers of every item whose type is not "Movie", and `get_episodes` calls it for every record with a path, so such a record without them panics there. The model makes both numbers a precondition and does not model the panic.
- Label truncation to 64 bytes in `get_episodes` and the "NOT FOUND" entries are UI glue and are left out, together with message editing, buttons and the modal search.
- EmbyClient.GetSortedItems: the array is sorted by insertion passes, not by the merge-based algorithm of Rust's `sort_by`. The contract states what both promise: sorted by key, the same items, and the same order within each key.
- EmbyClient.StringOrInt: the error is one fixed text; serde's wording of the unexpected value is not modelled.
- All HTTP and serde plumbing of the media-library client (requests, responses, the other search and get methods, the stop callback) is network I/O and is left out. So is `src/main.rs` (bootstrap, signals) and `src/gameserver.rs` (Kubernetes calls).

## Findings

| source | as written | input that shows it | evidently intended | confidence | as-written member | corrected member |
|---|---|---|---|---|---|---|
| src/gstreamer.rs:304-308 | a backward seek subtracts the magnitude from the current position in u64 | playing at 10 s, seek by -30 s: the subtraction underflows. A debug build panics on it; a release build computes `new_pos` = 0xFFFF_FFFF_FFFF_FFEC s, whose conversion to nanoseconds by `ClockTime::from_seconds` (line 312) overflows in turn, so the seek is never issued | seek to the start, position 0 | high (not executed) | GStreamer.SeekTargetAsWritten, shown by GStreamer.SeekBackThirtyFromTen and GStreamer.SeekPastStartWraps | GStreamer.SeekTarget (used by SeekPipeline and SeekVideo) |
