# differ: request engine, blob cache, staging oracles and hunk motion

A model in Dafny of the parts of differ.nvim whose correctness spans many steps: the sidecar
that answers requests over a byte stream, the cache it keeps, the checks that say what a
staged file may look like, and the arithmetic that keeps a cursor on its line.

## What is modelled

- **Frames and requests** (`framing.dfy`, `dispatch.dfy`, `engine.dfy`). A buffered reader cuts
  a byte stream at newlines and drops oversized frames. One reader, a goroutine a request, a
  64-slot channel and one writer form a transition system; the theorems are about every
  interleaving. Parsing is any function. A frame starts at most one handler, so a session names
  each frame's handler outcome (result, error or panic) in advance; quantifying over sessions
  covers handlers that do anything in any order.
- **The blob cache** (`recency.dfy`, `cache.dfy`, `lru.dfy`, `blobs.dfy`). A map, a linked ring
  with a sentinel and a byte count are refined to a recency sequence; runs of accesses are
  compared across limits, and overlapping requests are a transition system over the mutex.
- **Texts and diffs** (`split.dfy`, `text.dfy`, `diff.dfy`, `splice.dfy`). Lines with and without
  a last newline, git's zero-count hunks, and the text a diff's sides splice into. A diff is
  valid when its hunks are in order and in range and the lines between them are equal.
- **What a staged text may be** (`lcs.dfy`, `moved.dfy`, `shuffle.dfy`, `placed.dfy`, `counts.dfy`,
  `staging.dfy`, `moves.dfy`, `oracles.dfy`). The movement, placement and counting checks, each
  against an independent meaning, and what they say about each other.
- **Cursor and hunks** (`nav.dfy`, `revert.dfy`, `render.dfy`, `review.dfy`). Motion over line
  maps, the cursor through reverts, the one-column rendering that supplies the maps, and the
  two staging keys as a state machine.
- **Paged reads** (`walks.dfy`, `threads.dfy`). Cursor and link walks against a server that may
  answer anything, with the requests it is asked on record, and the review threads built from
  the nodes read.

## Where the code and its words differ

- `moved` is described as deciding whether one text is another with lines taken out and put in
  (test/fuzz/stage.lua:136-137). It does so exactly when no line both leaves and enters
  (`Moved.ExactWhenDisjoint`).
- A NUL is said never to reach a line (lua/differ/util/text.lua:72-73). `is_binary` looks for one
  in the first 8000 bytes only, so a later one does (`Text.LateNulIsLost`), and `ended_text` gives
  a text back exactly when no NUL stands directly before a newline in it (`Text.EndedTextInverts`).
- `rawBlob` takes its ref for a commit sha, whose bytes never change (internal/github/files.go:68-70),
  but `GetFileVersions` passes on the base and head it is given. A query is alone with its key
  exactly when owner, repository and ref hold no slash (`Blobs.KeyTellsExactly`), and the cache
  answers a set of queries truly exactly when no two share a key within its limit
  (`Blobs.TransparentExactly`).

## What the checks and the walks say of each other

- Placement implies the count bounds always (`Oracles.PlacementKeepsCounts`), and the movement
  check always for a reverted file (`Oracles.RevertIsEdit`). For an index it implies the movement
  check where the rows that stay in each hunk are on one side (`Oracles.PlacementIsEdit`), and with
  no line twice only there (`Oracles.PlacementMovesExactly`).
- Splicing lines and joining ended lines are one operation exactly on texts with no NUL directly
  before a newline (`Splice.JoinAgreesExactly`).
- The GraphQL walks stop at a cursor that has not moved (`Walks.UnmovedCursorStops`); the REST walk
  has no such rule (`Walks.UnmovedLinkRepeats`).

## Assumptions

- A diff of two texts is valid both for their lines and for their ended lines, with an unchanged
  line between hunks, as the diff library reports it.
- The store a request reads from does not change while the requests run: a ref names one version.
- The review walk assumes that the source either moves the hunk it was asked for and takes none
  back, or refuses it; a source that keeps failing is shown never to finish.

## Model

| member | source | states |
|---|---|---|
| Framing.Reader.ReadSlice | internal/server/server.go:97 | The buffered reader as an environment: a chunk ending in the newline, a full buffer without one, or the tail with the stream's end; what is left is what follows the chunk |
| Framing.DiscardFrame | internal/server/server.go:121-127 | Leaves the reader just past the current frame's newline, whatever the buffer size; a full buffer is never reported |
| Framing.ReadFrame | internal/server/server.go:95-117 | One frame is the bytes up to the next newline; oversized exactly when it is longer than the cap without its newline; the reader is left past the terminator; the line held never exceeds cap plus buffer |
| Framing.FramesUnfold | internal/server/server.go:63-84 | The frames of a stream are its newline-separated pieces: the first piece, then the frames of the rest |
| Framing.FramesArrive | internal/server/server.go:92-117 | Every newline-free frame a client sends arrives once, in order, on its own account, whichever of its neighbours are oversized |
| Dispatch.RunHandler | internal/server/dispatch.go:46-80 | The response to one request, always under its id: the handler's result and no error; its coded error as it is; an internal error after any other failure or a panic; a bad request for an unknown method; no result beside an error |
| Dispatch.ActionAt | internal/server/dispatch.go:26-42 | What the reader does with each frame: skip, answer inline, or start a handler; a handler starts exactly for a non-hello request after an earlier successful hello; unparsable and oversized frames are answered under id 0 |
| Dispatch.Server.Dispatch | internal/server/dispatch.go:26-42 | Takes the action of its frame and leaves the gate open exactly when some hello so far has succeeded |
| Dispatch.Server.HandleFrame | internal/server/server.go:64-77 | A frame as read gets the action of its parsed form, and the gate is kept |
| Dispatch.Server.ReadLoop | internal/server/server.go:62-84 | Over a whole stream: one action per frame of the stream, in order, and the stream's error unless it is the end of input |
| Engine.RunsKeepInv | internal/server/server.go:45-90 | Under every interleaving, what is written, queued, blocked or still to come from live handlers accounts for exactly one response per non-empty frame read |
| Engine.FinalOutput | internal/server/server.go:45-90 | When Run returns, every frame has been read, the output is the answers in some order, exactly one for each non-empty frame and none for anything else |
| Engine.LinesAnswered | internal/server/server.go:45-90 | From the client's bytes: of the lines sent, under every schedule, each but an empty one has exactly one response when Run returns, and nothing else is written. It is the handler's result or error for a hello and for any request after a hello that succeeded, a refusal before one, and a bad request under no id for a line too long or not parsed |
| Engine.ChannelBound | internal/server/server.go:46 | The channel never holds more than 64 responses |
| Engine.ChannelFills | internal/server/server.go:46 | And with the writer held up it comes to hold 64 |
| Engine.NeverSendsOnClosed | internal/server/server.go:86-88 | Once the channel is closed no process can send on it, nor is one blocked sending |
| Engine.InlineFirst | internal/server/dispatch.go:22-42 | In every run, an inline response for a frame comes before the response to every later frame |
| Engine.HelloPrecedesHandlers | internal/server/dispatch.go:26-42 | In every run, a successful hello's response comes before every handler's |
| Engine.StepsDescend | internal/server/server.go:45-90 | A measure over unread frames, live handlers, blocked sends and queued messages drops on every step |
| Engine.RunsAreBounded | internal/server/server.go:45-90 | No schedule is longer than six steps a frame and four more |
| Engine.NeverStuck | internal/server/server.go:46-89 | A reachable state has an enabled step exactly until Run returns, the 64-slot channel full or not |
| Engine.SerialRun | internal/server/server.go:45-90 | A schedule that answers one frame at a time exists |
| Engine.MatchesSerialRun | internal/server/server.go:45-90 | Every complete run writes the same multiset of responses as the one-at-a-time run |
| BlobCache.List.MoveToFront | internal/github/cache.go:45-55 | Moves a node of the linked ring to the front: the recency sequence with that entry first, the ring's links intact |
| BlobCache.List.Remove | internal/github/cache.go:79 | Takes a node out of the linked ring |
| BlobCache.List.PushFront | internal/github/cache.go:67 | Puts a new node at the front of the linked ring |
| BlobCache.Cache.Blob | internal/github/cache.go:46-55 | A hit returns the stored blob and makes it the most recent; a miss changes nothing |
| BlobCache.Cache.Evict | internal/github/cache.go:75-83 | What remains is the trimmed recency sequence; map, list and byte count still agree |
| BlobCache.Cache.Admit | internal/github/cache.go:60-69 | The new entry first, the old one for its key gone, the rest in order |
| BlobCache.Cache.PutBlob | internal/github/cache.go:57-71 | The contents become the recency sequence with the new entry first, trimmed to the limit; map keys, list nodes and byte count correspond; the blob is held exactly when its key and content together are within the limit |
| BlobCache.Cache.ClearAll | internal/github/cache.go:85-91 | Empties map, list and count |
| BlobCache.Cache.WellKeptEntries | internal/github/cache.go:16-35 | In every valid state keys are distinct, the byte count is the length of all keys and contents together, and it is within the limit unless the cache is empty |
| Recency.TrimIsLongestFit | internal/github/cache.go:73-83 | Evicting from the cold end leaves the longest prefix of the recency sequence within the limit |
| Recency.LongestFitUnique | internal/github/cache.go:73-83 | There is only one such prefix |
| Recency.PutKeeps | internal/github/cache.go:57-71 | A put keeps the contents well formed and is the longest fitting prefix of the updated order; a key whose size fits is kept first, one that does not fit empties the cache |
| Recency.PutFits | internal/github/cache.go:33-83 | In bytes of key and content: a put keeps the new entry exactly when the limit has room for it, and as much of the updated order as fits |
| Recency.TouchKeeps | internal/github/cache.go:53 | A hit keeps the contents well formed |
| Lru.OrderByLastUse | internal/github/cache.go:46-71 | The full order holds every key used since the last flush, the later used before the earlier |
| Lru.HitStep | internal/github/files.go:75-78 | An access to a cached key keeps the contents equal to the trimmed full order |
| Lru.MissStep | internal/github/files.go:79-100 | So does an access that fetches |
| Lru.ContentsFitOrder | internal/github/cache.go:46-91 | After any sequence of accesses and clears the contents are the longest prefix of the full recency order that fits |
| Lru.Inclusion | internal/github/cache.go:46-91 | The contents under a smaller limit are a prefix of those under a larger one, for every sequence of accesses and clears |
| Lru.HitStays | internal/github/cache.go:46-91 | An access that hits under a limit hits under any larger one |
| Lru.HitsMonotone | internal/github/cache.go:46-91 | So there are never fewer hits under a larger limit, up to any point of a run |
| Blobs.BlobKeyInjective | internal/github/cache.go:41-43 | Queries whose owner, repository and commit hold no slash have different keys |
| Blobs.KeyTellsExactly | internal/github/cache.go:41-43 | A query shares its key with no other slash-free one if and only if its own owner, repository and commit hold no slash |
| Blobs.Client.RawBlob | internal/github/files.go:71-101 | Token error, hit, failed fetch, and found or missing path: the answer and the exact new contents of the cache in each case |
| Blobs.RunsStayTruthful | internal/github/files.go:71-101 | Under any interleaving of mutex-atomic looks, puts and clears, every entry and every finished request holds what the store holds for some query asked for that has its key |
| Blobs.Transparent | internal/github/files.go:71-101 | A request that succeeds, slashes or not, is answered with the store's blob for some query asked for with its key, and with its own blob when no other query asked for has that key or the key is longer than the limit, whatever overlaps it |
| Blobs.CollisionShows | internal/github/files.go:71-101 | Of any two queries with one key, at any limit with room for the key, a run answers the second with the first's blob |
| Blobs.TransparentExactly | internal/github/files.go:71-101 | At any limit and on any set of queries, every run answers every query with its own blob if and only if no two of them share a key within the limit |
| Blobs.TransparentWithoutSlashes | internal/github/files.go:71-101 | So every run over queries whose owner, repository and commit hold no slash does, at any limit |
| Blobs.VersionsAreTrue | internal/github/files.go:17-47 | The two blobs of an answer are the store's for the base path at the base and the path at the head, unless another query asked for has the key of one; a failure of the base comes before one of the head |
| Text.EndedTextInverts | lua/differ/util/text.lua:73-104 | Reading a text as ended lines and writing them back gives it back, the presence of a last newline included, if and only if no NUL stands directly before a newline in it |
| Text.LateNulIsLost | lua/differ/util/text.lua:38-41 | A text read by line does not come back, and comes back shorter, if and only if a NUL stands directly before a newline past its first 8000 bytes |
| Text.LateNulExists | lua/differ/util/text.lua:38-41 | Any 8000 bytes with no NUL begin such a text |
| Splice.JoinWritesEnds | lua/differ/model/apply.lua:81-104 | The old blocks at every hunk join into the old text, and the new blocks into the new, each if and only if no NUL stands directly before a newline in it |
| Lcs.Length | test/fuzz/stage.lua:117-134 | The rolling-row loop computes the table's last cell |
| Lcs.CommonOfLength | test/fuzz/stage.lua:117-134 | Some common subsequence has that length |
| Lcs.NoneLonger | test/fuzz/stage.lua:117-134 | No common subsequence is longer |
| Moved.Add | test/fuzz/stage.lua:146-150 | Each line's count changes by the sign for every occurrence |
| Moved.AllZero | test/fuzz/stage.lua:155-159 | Whether every count is zero, in any table order |
| Moved.Check | test/fuzz/stage.lua:143-161 | Accepts exactly when the line counts balance and the longest common subsequence is at least what should stay |
| Moved.EditAccepted | test/fuzz/stage.lua:136-161 | Every edit that takes the leaving lines out and puts the entering ones in, the rest in order, is accepted |
| Moved.AcceptedIsEdit | test/fuzz/stage.lua:136-161 | Where no line both leaves and enters, only such edits are accepted |
| Moved.SharedMisleads | test/fuzz/stage.lua:136-161 | For any lists sharing a line there are two texts that are accepted and are no such edit |
| Moved.ExactWhenDisjoint | test/fuzz/stage.lua:136-161 | The check means exactly such an edit, on all pairs of texts, if and only if no line both leaves and enters |
| Shuffle.Interleaves | test/fuzz/stage.lua:259-275 | The table decides whether the lines from a point on start with an order-preserving merge of the two lists, running out of text included |
| Shuffle.CellStep | test/fuzz/stage.lua:267-270 | A cell is true from the cell above or to the left and the matching line |
| Shuffle.ShufflesMeansDealt | test/fuzz/stage.lua:253-275 | A merge is exactly a way of dealing the lines to two sides that leaves each list whole and in order |
| Placed.Unchanged | test/fuzz/stage.lua:293-301 | Advances past a run of old lines exactly when the text has them there |
| Placed.Walk | test/fuzz/stage.lua:302-326 | The walk over the hunks accepts exactly the texts that read as the rows |
| Placed.IsPlaced | test/fuzz/stage.lua:287-327 | The same from the texts |
| Placed.ReadsMeansJoined | test/fuzz/stage.lua:277-327 | From any hunk on, a text is accepted exactly when it is the unchanged lines joined with, at each hunk, some merge of the held old and new lines |
| Placed.OldSideReadsOld | test/fuzz/stage.lua:287-327 | Holding every old line and no new one accepts exactly the old text |
| Placed.NewSideReadsNew | test/fuzz/stage.lua:287-327 | Holding every new line and no old one accepts exactly the new text |
| Placed.HunkStands | test/fuzz/stage.lua:302-326 | At any hunk, an accepted text is one accepted for the hunks before on the lines before it, a merge of the hunk's held lines, and one accepted for the hunks after on the lines after it; and every such text is accepted |
| Placed.InsertionAfterStart | test/fuzz/stage.lua:303-306 | For any hunk with no old lines, the texts accepted are those with its held new lines after the old line its start names, between the lines up to there and those from there on |
| Staging.PlacedOp | test/fuzz/stage.lua:366-384 | No verdict where the index before does not read as the rows; otherwise whether the written index, and the written file if any, do |
| Staging.LineCounts | test/fuzz/stage.lua:554-560 | Each bare line's number of occurrences |
| Staging.EndingIgnored | test/fuzz/stage.lua:554-560 | A last line counts as the same line whether or not a newline ends it |
| Staging.Within | test/fuzz/stage.lua:570-583 | Whether every line's count is where it was or within the allowance around the aim |
| Staging.LeftOut | test/fuzz/stage.lua:598-604 | Each line's count among the rows the selection leaves out, by side |
| Staging.CountsKept | test/fuzz/stage.lua:570-613 | Accepts exactly when every line's count is no more than both where it was and the side aimed at with the rows left out of the other side, and no less than both where it was and the side aimed at without its own rows left out: towards the file when staging and HEAD otherwise, and towards HEAD for a written file |
| Oracles.WholeSelectionCounts | test/fuzz/stage.lua:570-613 | With every row selected the counts are kept exactly when each line's lies between where it was and where the side aimed at has it |
| Oracles.WholeSelection | test/fuzz/stage.lua:334-384 | With every row staged the placed index is the file, with none it is HEAD; staging every row makes it the file, unstaging every row makes it HEAD, and reverting every row makes the file HEAD |
| Oracles.EmptySelection | test/fuzz/stage.lua:334-384 | With no row selected an operation judges the index as it judges the one before, and a reverted file must be the file |
| Counts.ReadsCount | test/fuzz/stage.lua:287-327 | A text that reads as the rows holds each line as often as the unchanged lines and the held rows do |
| Oracles.StagedCount | test/fuzz/stage.lua:570-613 | A placed staged index has each line within the rows left out of the file's count |
| Oracles.UnstagedCount | test/fuzz/stage.lua:570-613 | A placed unstaged index has each line within the rows left out of HEAD's count |
| Oracles.RevertedCount | test/fuzz/stage.lua:570-613 | A placed reverted file has each line exactly as HEAD does, less the old and more the new rows left out |
| Oracles.PlacementKeepsCounts | test/fuzz/stage.lua:366-613 | For any valid diff, marks and selection, a write accepted by placement is accepted by the count bounds, for s, u and X |
| Moves.MovesOf | test/fuzz/stage.lua:176-210 | The lines each operation moves, by marks, selection and operation, in any table order |
| Moves.IndexBalances | test/fuzz/stage.lua:143-384 | Two placed indexes, before and after, balance with the moved lines |
| Moves.WorkBalances | test/fuzz/stage.lua:143-384 | So do the file and its placed reversion |
| Oracles.PlacementIsEdit | test/fuzz/stage.lua:143-384 | Where in each hunk the rows that stay are all old or all new, a placed index is an edit by the moved lines and passes the movement check |
| Oracles.RevertIsEdit | test/fuzz/stage.lua:143-384 | A placed reverted file always does |
| Oracles.PlacedYetRefused | test/fuzz/stage.lua:143-384 | Without that condition, and with no line twice, some two placed indexes, before and after, are refused by the movement check |
| Oracles.PlacementMovesExactly | test/fuzz/stage.lua:143-384 | With no line twice among the unchanged lines and the rows, every two placed indexes pass the movement check if and only if the rows that stay in each hunk are all old or all new |
| Splice.SpliceLines | lua/differ/model/apply.lua:14-36 | The loop yields the unchanged lines with the chosen block at each hunk, and the side whose ending the text takes |
| Splice.SpliceText | lua/differ/model/apply.lua:14-42 | The same as a text |
| Splice.SpliceIsFlagged | lua/differ/model/apply.lua:14-42 | The spliced text is the spliced lines, each with the end it has on its own side, whichever side the unchanged lines come from |
| Splice.SpliceIsEndedJoin | lua/differ/model/apply.lua:14-104 | Splicing plain lines and choosing an ending is the same text as joining ended lines, where no NUL stands directly before a newline |
| Splice.JoinAgreesExactly | lua/differ/model/apply.lua:14-104 | The two are the same text for every choice of hunks if and only if no NUL stands directly before a newline in either side |
| Splice.SpliceEnds | lua/differ/model/apply.lua:1-42 | No hunk applied gives back the old text and every hunk applied the new one, last newline included |
| Splice.SpliceBaseFree | lua/differ/model/apply.lua:12-42 | Which side the unchanged lines come from makes no difference |
| Splice.SpliceReadsBack | lua/differ/model/apply.lua:14-42 | The spliced text reads back as the spliced lines |
| Revert.RevertHunk | lua/differ/model/diff.lua:128-145 | The new text with one hunk spliced out |
| Revert.FocusKeepsLine | lua/differ/view.lua:1923-1935 | Reverting one hunk, every line outside it keeps its content at the new focus; a line inside goes to where the restored lines, and then the lines after the hunk, start |
| Revert.RevertHunkKeepsLine | lua/differ/view.lua:2007-2016 | The rebuilt new text holds, at the new focus, the line the cursor was on, or from there on the restored lines and the lines after the hunk |
| Revert.FoldFocus | lua/differ/view.lua:2086-2091 | The loop from the last hunk to the first is the fold |
| Revert.FoldIsSimultaneous | lua/differ/view.lua:2086-2091 | The fold is every hunk's shift at once, each hunk read where it stands before anything moves |
| Revert.FoldKeepsLine | lua/differ/view.lua:2086-2091 | With all of a diff's hunks reverted, a line outside them is found with its content at its folded focus |
| Revert.HoldNewLine | lua/differ/view.lua:1942-1955 | Finds the row of the nearest rendered line, the earlier of two equally near, no further off than there are rows |
| Revert.NearestFirst | lua/differ/view.lua:1942-1955 | At the first distance with a line rendered either side, the row of the one before, or else of the one after |
| Revert.HoldFindsRow | lua/differ/view.lua:1942-1955 | With lines 1 to N rendered, a row is found for any of them and for the line after the last |
| Nav.LineMap.Push | lua/differ/render/linemap.lua:34-44 | Appends a row and points its old and new line numbers at it |
| Nav.RowAt | lua/differ/nav.lua:15-22 | The first column's row there with a hunk, else the first column's |
| Nav.Merge | lua/differ/nav.lua:28-45 | A single map as it is; otherwise rows by the first hunk shown and line numbers by the last map that has them |
| Nav.MergedRow | lua/differ/nav.lua:15-22 | A merged row is the row of the first column that has a hunk there, or else the first column's |
| Nav.MergedIndex | lua/differ/nav.lua:37-44 | A merged line number has the row of the last column that has it |
| Nav.HunkStarts | lua/differ/nav.lua:51-61 | The rows that begin a run of one hunk, ascending |
| Nav.NextHunk | lua/differ/nav.lua:69-76 | The least matching start past the cursor, or none |
| Nav.PrevHunk | lua/differ/nav.lua:84-95 | The greatest matching start before the cursor, or none |
| Nav.FirstHunk | lua/differ/nav.lua:102-104 | The least matching start |
| Nav.LastHunk | lua/differ/nav.lua:109-111 | The greatest matching start |
| Nav.StartIsFirstShown | lua/differ/nav.lua:28-61 | On merged columns with contiguous hunk rows, a hunk starts exactly at the least row any column shows it |
| Nav.OneStartEach | lua/differ/nav.lua:28-61 | No hunk starts twice |
| Nav.ShownHasStart | lua/differ/nav.lua:28-61 | Every hunk some column shows has a start |
| Nav.MotionOnVisitsAll | lua/differ/nav.lua:69-76 | Stepping on from the top under any filter visits each matching start once, ascending |
| Nav.MotionBackVisitsAll | lua/differ/nav.lua:84-95 | Stepping back from the bottom is its exact reverse |
| Nav.FileLine | lua/differ/nav.lua:121-137 | The new line of the nearest row at or after the cursor that has one, else of the nearest before |
| Nav.FileLineMonotone | lua/differ/nav.lua:121-137 | With ascending new-side numbers a later cursor never maps to an earlier file line |
| Nav.FileLineInverts | lua/differ/nav.lua:121-137 | The file line of an indexed row is the line indexed |
| Nav.IndexInverts | lua/differ/nav.lua:121-137 | The row indexed for a shown row's file line is that row |
| Render.PushHunk | lua/differ/render/stacked.lua:72-97 | A hunk's old rows, then its new ones |
| Render.RenderStacked | lua/differ/render/stacked.lua:65-98 | The one-column rendering of a diff, its line numbers indexed |
| Render.ShowsEveryNewLine | lua/differ/render/walk.lua:23-51 | The rendering shows each new line exactly once, in order, and nothing where there is no hunk |
| Render.ShowsEveryOldLine | lua/differ/render/walk.lua:23-51 | And each old line |
| Render.StackedIndex | lua/differ/render/stacked.lua:65-98 | With a hunk to show, it indexes exactly the new side's lines, ascending |
| Render.RenderedTells | lua/differ/render/stacked.lua:65-98 | A row is old exactly where it shows an old line alone, new where a new line alone, both of its hunk; context where it shows one line of both sides, outside the hunks; and exactly the old side's lines are indexed, each at a row that shows it |
| Render.StackedContiguous | lua/differ/render/stacked.lua:65-98 | Its hunk rows are contiguous, so the motions' hypotheses hold of it |
| Render.HunkRowLine | lua/differ/view.lua:1286-1299 | In the one-column rendering, the file line of any row of a hunk with new lines is inside the hunk; of one without, the line after it, or the last line of the file |
| Render.RevertKeepsCursor | lua/differ/view.lua:2007-2044 | Reverting a hunk and rendering the rebuilt diff leaves a cursor outside it on a row showing the same line, and one inside on the row where the restored lines, and then the lines after the hunk, start, or on the last line |
| Render.RevertFromItsRow | lua/differ/view.lua:1975-2044 | From any row of the hunk reverted, with no edit window: with new lines to lose the cursor lands where the restored lines start, otherwise on the line that stood next to the hunk |
| Render.RevertLinesKeepsCursor | lua/differ/view.lua:2083-2104 | Reverting lines and rendering the rebuilt diff leaves a cursor outside every hunk taken on a row showing the same line, and any other on the row of the line its focus names, or of the last line |
| Review.View.IsDone | lua/differ/view.lua:1700-1708 | Whether no hunk has anything left for the key |
| Review.View.Scan | lua/differ/view.lua:1763-1784 | The next wanted hunk in the key's direction, and the first from the far end |
| Review.View.StepReview | lua/differ/view.lua:1763-1803 | To the next wanted hunk in the key's direction, else the first from the far end, else the file is done |
| Review.View.ApplyHunk | lua/differ/view.lua:1485-1500 | Changed, refused or failed, as the source answers, and never on a hunk already where the key moves it |
| Review.View.ToggleHunk | lua/differ/view.lua:1809-1835 | A change clears the stuck record of both keys; a refusal adds the hunk to this key's and steps on; a failure changes nothing |
| Review.View.Press | lua/differ/view.lua:1506-1547 | One press: a hunk not yet staged, or for the other key unstaged, becomes what the source made of it, is set aside for this key if refused, and is left if it failed or was not confirmed; otherwise the walk steps on |
| Review.StageKeyStages | lua/differ/view.lua:1506-1520 | A confirmed s on a hunk not staged leaves what the source made of it or sets it aside for s alone; elsewhere it moves nothing |
| Review.UnstageKeyUnstages | lua/differ/view.lua:1531-1547 | And u on a hunk not unstaged |
| Review.StageStepsDown | lua/differ/view.lua:1763-1784 | s goes to the first hunk not staged below the cursor, else the first of the file, and is done exactly when there is none |
| Review.UnstageStepsUp | lua/differ/view.lua:1763-1784 | u goes to the last hunk not unstaged above the cursor, else the last of the file, and is done exactly when there is none |
| Review.StepLands | lua/differ/view.lua:1763-1803 | A step lands on a wanted hunk, or none is left |
| Review.PressProgress | lua/differ/view.lua:1506-1519 | Every confirmed press on a source that moves the hunk and takes none back, or refuses, finishes the file or lowers the lexicographic measure |
| Review.WalkEnds | lua/differ/view.lua:1696-1846 | However such a source answers, some press among the first n(2n+2) + 2n + 2 finds the file done: under s every hunk staged or refused by s, under u every hunk unstaged or refused by u |
| Review.FailuresNeverEnd | lua/differ/view.lua:1809-1835 | While every press fails the walk stays where it was and never finishes, however many the presses |
| Review.StackedNumbered | lua/differ/view.lua:1179-1183 | A rendered diff numbers and shows its hunks as the walk needs |
| Walks.WalkIsTrip | internal/github/graphql.go:13-23 | Against any server there is one walk: each request asks for the cursor the page before gave, at most its budget in all, stopping at a failure, a last page or the cap |
| Walks.CursorWalk | internal/github/graphql.go:13-23 | A GraphQL walk starts with no cursor and goes on just while a page says there is more and gives a cursor neither empty nor the one asked for |
| Walks.LinkWalk | internal/github/rest.go:81-106 | A REST walk goes on just while a page links to another |
| Threads.Build | internal/github/threads.go:26-56 | A node's thread: its root comment's number and draft state, its anchor with null lines as zero, its comments in order and whether they were cut off, and the newest apart |
| Threads.BuildsOne | internal/github/threads.go:26-56 | A node makes one thread |
| Threads.GetThreads | internal/github/threads.go:12-66 | The threads of the nodes of every page on the chain, in order, or the first failure; exactly the walk's requests are made |
| Walks.FlattenOrder | internal/github/rest.go:103 | The items of each page stand after those of the pages before it, in their own order |
| Walks.GetTimeline | internal/github/timeline.go:10-49 | Every page's comments in order and the first page's verdicts |
| Walks.CollectVerdicts | internal/github/timeline.go:30-40 | Submitted reviews, less bare comments |
| Walks.VerdictKept | internal/github/timeline.go:30-40 | A review is kept exactly when it is submitted and has a body or a state other than none and a plain comment |
| Walks.GetPaged | internal/github/rest.go:81-106 | The items of every linked page in order, or the first failure; no request without a token |
| Walks.GetMeta | internal/github/prs.go:64-88 | The first page's metadata, and each path's last seen state over all pages |
| Walks.MergeStates | internal/github/prs.go:110-123 | The REST list in its order, each file with its last seen state or UNVIEWED |
| Walks.VerdictsInOrder | internal/github/timeline.go:30-40 | And kept in order |
| Walks.LastGiven | internal/github/prs.go:76-123 | A file's state is the last its path was given on any page, UNVIEWED if that is empty |
| Walks.NeverGiven | internal/github/prs.go:110-123 | A path given none is UNVIEWED |
| Walks.GetPR | internal/github/prs.go:63-125 | The two walks merged; the second is not begun when the first fails |
| Walks.HonestWalk | internal/github/graphql.go:10-23 | A walk over an honest server reads its pages in order, each once, as far as the cap |
| Walks.WholeList | internal/github/graphql.go:10-23 | With fresh cursors the whole list is read exactly when nothing lies past the hundredth page |
| Walks.WholeTimeline | internal/github/timeline.go:10-49 | With fresh cursors the timeline has every comment exactly when none lies past the hundredth page, and the first page's verdicts |
| Walks.WholeViewed | internal/github/prs.go:64-88 | And every file's viewed state is seen exactly when none lies past the hundredth page |
| Walks.WholeLinkedList | internal/github/rest.go:81-106 | Over linked pages the whole list is read exactly when nothing lies past the hundredth page |
| Walks.UnmovedCursorStops | internal/github/graphql.go:13-23 | A server that always names the same cursor is asked twice |
| Walks.UnmovedLinkRepeats | internal/github/rest.go:81-106 | A server that always links to the same page is asked to the cap |

## Left out

- Neovim windows, extmarks, folds, keymaps and notices: editor side effects; the cursor is a row number and a file step off the end is the walk being done.
- Whole-file sources, `u` on hidden staged content, and the panel's file order: the review walk is one key over one file's hunks.
- The split renderer's pairing of similar lines: its maps enter `Nav` as any row-aligned columns with contiguous hunk rows; the one-column renderer is modelled whole, less word spans and folds.
- HTTP, headers, tokens, JSON, GraphQL documents, log lines and error codes: responses are results or failures.
- Reading a database id as a number: any function.
- Walks.GetPR: the file list's URL is taken as not empty, which its construction ensures.
- Blobs.VersionsAreTrue: the two fetches of GetFileVersions are two of the overlapping requests of the transition system, not a method that starts them; resolving a pull request's commits first is one request with no loop.
- Real time, rate-limit hints, cancellation, and failures of the response encoder: the encoder is taken to succeed.
- The integer width of the cache's byte count: the limit and every charge are far below it.
- `straight`, `stage_op`, `revert_op`, random generation and reporting in test/fuzz/stage.lua: the selection core they call is not among the modelled files.
- Staging.LeftOut: walks the hunks' rows directly rather than through a list of rows built first.
