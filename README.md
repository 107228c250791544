# lizgoban engine session, utilities and game record in Dafny

This project models three parts of lizgoban, a Go analysis front-end for Leela Zero and KataGo.

**The engine session** (`create_leelaz` in src/engine.js) sits between the application and a GTP engine (GTP is the Go Text Protocol, version 2).
- It keeps a queue of command lines and prunes it as new commands arrive.
- It sends the queue head only when every earlier request has been answered. Each part of a `;`-joined entry goes out as `<id> <command>`, with consecutive ids.
- It matches `=N` / `?N` replies with one-shot handlers.
- It keeps the engine's board in step with the application's history by sending undos and plays.
- It probes engine features one after another when the engine is ready.
- It switches its standard-error reader between a main mode and an endstate block mode.

**The utilities** (src/util.js) are the helpers the session and the game use:
- `common_header_length`;
- the `each_line` chunk-to-line framer;
- `array2hash`, `seq` / `do_ntimes`, `snip_text`, `str_uniq`;
- `change_detector`, `truep` and `clip`.

**The game record** (`create_game` in src/game.js) covers:
- a history of move records that is changed in place;
- 1-based lookup, truncation and a replacement that keeps the common prefix;
- copying a game;
- flattening SGF game trees into histories;
- the cyclic tag-letter allocator.

Modules:
- `JsString`: the JavaScript string built-ins the source relies on.
  - `split` on a character and on a string, `join`, `indexOf` and `includes`;
  - `trim().split(/\s+/)`;
  - decimal numbers and `x | 0` (ToInt32).
- `Util`: src/util.js.
  - `each_line` is the class `LineFramer`, whose field `buf` carries the partial line from one call to the next.
  - `change_detector` is the class `ChangeDetector`.
  - `array2hash` is a method with a loop that fills a map.
- `EngineCommands`: the pure parts of src/engine.js.
  - the command predicates and the three pruning rules;
  - the request and reply formats;
  - the board diff;
  - the parsers for endstate rows and `lz-analyze` lines, and the `order` sort and `visits` ranks of `suggest_reader`.
- `EngineSpec`: the whole session as a `State` datatype and one function per closure operation, with the lemmas about them.
  - Writes to the engine's standard input are appended to `sent`.
  - Calls to the owner's handlers (`ready_handler`, `endstate_handler`, `suggest_handler`, `error_handler`, a peek continuation) are appended to `events`.
- `EngineSession`: the class `Session`, whose fields are the closure's variables.
  - Each method changes them in place.
  - Each method's contract says that the new state `Abs()` is the matching `EngineSpec` function of the old state.
- `Game`: src/game.js.
  - `Game` and `Registry` are classes. `Registry` holds the module counters `next_game_id` and `next_tag_count`.
  - `history_from_sabaki_nodes` is a method with loops that push records.

Two facts about the source that shape the model:
- All `;`-parts of one queue entry are sent back to back (src/engine.js:143), so a peek has five requests outstanding.
- `start` / `restart` keep the `supported` map and the reply handlers (src/engine.js:38-51). Answers from earlier probes stay until the fresh probes overwrite them, and a handler left from before a restart can sit above the new request counter.

## Model

| member | source | states |
|---|---|---|
| JsString.Split | src/engine.js:168 | `split_commands`: at least one part, and no part contains the separator |
| JsString.JoinSplit | src/engine.js:167-168 | joining the parts of a split with the separator gives back the text |
| JsString.SplitJoin | src/engine.js:167-168 | splitting joined parts that are free of `;` gives the parts back, so `split_commands(join_commands(...))` is the identity |
| JsString.IndexOf | src/engine.js:171-175 | the result is the first position at or after `from` where the pattern occurs; None only when it occurs nowhere there |
| JsString.ContainsIff | src/engine.js:171-175 | an unanchored match holds exactly when the pattern occurs at some position |
| JsString.JoinSplitOn | src/engine.js:231 | splitting at `pv` and joining again gives the line back |
| JsString.SplitWords | src/engine.js:232 | `trim().split(/\s+/)` is `[""]` or a list of non-empty words without white space |
| JsString.WordsAround | src/engine.js:232 | white space separates words: the words of `a`, one white-space character and `b` are the words of `a` followed by those of `b` |
| JsString.WordsOfWord | src/engine.js:232 | a non-empty text without white space is its own only word |
| JsString.WordsJoin | src/engine.js:232 | words joined with single spaces split back into the same words, in order |
| JsString.SplitWordsJoin | src/engine.js:232 | `trim().split(/\s+/)` of one or more words joined with single spaces gives exactly those words |
| JsString.Trim | src/engine.js:232 | the result is a slice of the input with only white space before and after it, and it neither starts nor ends with white space |
| JsString.DecimalRoundTrip | src/engine.js:150 | the decimal text written for an id denotes that id |
| JsString.ToInt32 | src/util.js:5 | `x \| 0` lands in the 32-bit range, agrees with `x` modulo 2^32, and is `x` itself inside that range |
| JsString.ToI | src/util.js:5 | `to_i` of any text is a 32-bit integer |
| JsString.DecimalToI | src/util.js:5 | `to_i` of the decimal text of a number below 2^31 is that number |
| Util.CommonHeaderLength | src/util.js:130-134 | k is at most both lengths, the first k records agree in move and colour, and when both have a k-th record they differ there |
| Util.CommonHeaderLengthIsLongest | src/util.js:130-134 | every common prefix is at most k long, so k is the longest |
| Util.CommonHeaderLengthSymmetric | src/util.js:130-134 | swapping the two histories gives the same k |
| Util.SplitLines | src/util.js:138 | `split(/\r?\n/)`: as many pieces as a split at `\n`, none containing `\n`, the same pieces when there is no `\r`, the same last piece, and every other piece is the `\n`-piece with one trailing `\r` dropped |
| Util.SplitLinesJoin | src/util.js:138 | lines without `\n`, none but the last ending in `\r`, joined with `\n` split back into the same lines |
| Util.FrameChunk | src/util.js:137-141 | with a buffer free of newlines, neither an emitted line nor the new buffer contains a newline |
| Util.FrameChunkBuffers | src/util.js:138-140 | a chunk without a newline emits nothing and only extends the buffer |
| Util.FrameChunkComplete | src/util.js:137-141 | the emitted lines, each followed by a newline, and then the new buffer give the old buffer followed by the chunk |
| Util.FramerStep | src/util.js:135-142 | all lines emitted so far, each followed by a newline, and then the buffer equal everything fed so far; one more chunk keeps this true |
| Util.LineFramer.constructor | src/util.js:136 | a new framer has an empty buffer, has been fed nothing and has emitted nothing |
| Util.LineFramer.Feed | src/util.js:137-141 | emits the lines of one chunk and keeps the rest as the buffer; the emitted lines are those returned; the completeness invariant is kept |
| Util.Array2Hash | src/util.js:30-33 | the map the loop fills is the key/value reading of the list |
| Util.Array2HashMeaning | src/util.js:30-33 | the keys are the elements at even positions; a key's value is the element after its last occurrence, or none past the end |
| Util.Seq | src/util.js:43 | `seq(n, from)` has length n and element i is `i + from` |
| Util.ForEachRecords | src/util.js:44 | a callback that records its argument, run over a list, records the list in order |
| Util.DoNTimes | src/util.js:44 | `do_ntimes(n, f)` as the fold of `f` over `seq(n)`; its calls are stated by DoNTimesCalls |
| Util.DoNTimesCalls | src/util.js:44 | `do_ntimes(n, f)` calls `f` exactly n times, with 0 … n-1 in order |
| Util.SnipText | src/util.js:87-91 | `snip_text` by its two cases, with a text or a function of the cut length for the dots; its shape is stated by SnipTextShape |
| Util.SnipTextShape | src/util.js:87-91 | short text is returned whole; longer text is its first `head` characters, the dots text for what was cut, then its last `tail` characters |
| Util.StrUniq | src/util.js:74 | the characters of the text without repeats, through a scan that remembers the characters seen; its meaning is stated by the three lemmas below |
| Util.StrUniqIsFirstOccurrences | src/util.js:74 | `str_uniq` equals the independent definition "keep each character whose earlier prefix does not contain it" |
| Util.StrUniqNoDuplicates | src/util.js:74 | the result has no repeated character and holds exactly the characters of the input |
| Util.StrUniqExample | src/util.js:73-74 | `'zabcacd'` gives `'zabcd'` |
| Util.ChangeDetector.constructor | src/util.js:98-103 | the previous value starts as the initial value |
| Util.ChangeDetector.IsChanged | src/util.js:100 | answers true exactly when the value differs from the one stored before, then stores the value |
| Util.ChangeDetector.Reset | src/util.js:101 | the stored value is the initial value again |
| Util.TruepMeaning | src/util.js:11 | only undefined, null, false and NaN fail `truep` |
| Util.Clip | src/util.js:17-18 | `max(lower, min(x, upper))`: `x` when in range, `lower` when `x` is at most `lower` or `upper` is below `lower`, otherwise `upper` when `x` is at or above it |
| Util.ClipNearest | src/util.js:17-18 | within a non-empty range the result is the point of the range nearest to `x` |
| EngineCommands.IsPonderingText | src/engine.js:172 | `/^(lz\|kata)-analyze/` as a prefix test |
| EngineCommands.IsEndstateText | src/engine.js:173 | `/^endstate_map/` as a prefix test |
| EngineCommands.IsPeekText | src/engine.js:174 | `/play.*undo/`: some `play` with an `undo` after it on the same line; stated by PeekMeaning |
| EngineCommands.IsChangerText | src/engine.js:175 | `/play\|undo\|clear_board/` as three unanchored substring tests; their meaning is stated by ContainsIff |
| EngineCommands.UndoAheadMeaning | src/engine.js:174 | the scan for `undo` succeeds exactly when `undo` occurs later on the same line |
| EngineCommands.PeekMeaning | src/engine.js:174 | `/play.*undo/` matches exactly when `play` occurs and `undo` starts after it, with no line break in between |
| EngineCommands.PeekIsChanger | src/engine.js:174-175 | every peek command is also a board-changing command |
| EngineCommands.Pruned | src/engine.js:130-138 | the three removals of `send_to_queue` in the source's order, then the push; stated by the four lemmas below |
| EngineCommands.PrunedIsSurvivors | src/engine.js:130-138 | `send_to_queue(s)` leaves the queue filtered by the survival rule, with `s` pushed after it |
| EngineCommands.RemainingIsSurvivors | src/engine.js:131-137 | the three filters applied one after another equal the single combined survival filter |
| EngineCommands.SurvivorsMembers | src/engine.js:131-137 | an entry survives exactly when it was queued and the rules keep it |
| EngineCommands.PrunedProperties | src/engine.js:130-138 | `s` is last, and no analysis entry is left before it. After an `endstate_map`, no earlier `endstate_map` is left. After a board change, no `endstate_map` or peek is left. Surviving entries stay and nothing new is added |
| EngineCommands.FormatCommand | src/engine.js:150 | `${id} ${cmd}`: the id's decimal text, a space and the command; ReplyRoundTrip and DecimalRoundTrip read the id back |
| EngineCommands.ParseReply | src/engine.js:187-189 | a line is a reply exactly when it starts with `=` or `?` and a digit; its success flag is true exactly for `=` |
| EngineCommands.ReplyRoundTrip | src/engine.js:187-189 | the reply `=N` or `?N` to a request with id N below 2^31 parses back as N with its flag |
| EngineCommands.Undos | src/engine.js:103 | `do_ntimes(back, undo1)` gives exactly `back` undos |
| EngineCommands.PlayAll | src/engine.js:103 | `rest.forEach(play1)` gives one play per record, in order |
| EngineCommands.BoardDiff | src/engine.js:100-103 | the diff has `\|prev\| - k` undos plus `\|history\| - k` plays |
| EngineCommands.ReplayUndos | src/engine.js:108 | n undos take the last n moves off the board |
| EngineCommands.ReplayPlays | src/engine.js:107 | the plays put their moves on the board in order |
| EngineCommands.BoardDiffReaches | src/engine.js:98-105 | replaying the diff on the engine's board gives exactly the target history |
| EngineCommands.BoardDiffExample | src/engine.js:100-103 | board `[A,B,C]` and target `[A,B,D]` give one undo and then the play of D |
| EngineCommands.BoardCommandSurvives | src/engine.js:107-108 | `undo` and `play c move` change the board and no pruning rule drops them |
| EngineCommands.UndoTextKind | src/engine.js:171-175 | `undo` changes the board and is not an analysis, endstate or peek command |
| EngineCommands.ClearBoardTextKind | src/engine.js:171-175 | `clear_board` changes the board, is not an analysis, endstate or peek command, and has no `;` |
| EngineCommands.PlayTextKind | src/engine.js:171-175 | `play c move` changes the board and is not an analysis, endstate or peek command |
| EngineCommands.ParseEndstateLine | src/engine.js:283-286 | rejects exactly the `endstate sum` line; otherwise one `to_i` value (in thousandths) per word |
| EngineCommands.SuggestParser | src/engine.js:229-234 | none exactly when the split at `pv` has fewer than two pieces or an empty second piece; otherwise the fields are the key/value reading of the words before the first `pv`, the pv is the words of the piece between the first and the second `pv` (the `b` of `[a, b] = s.split(/pv/)`), and `visits` and `order` are `to_i` of those fields (0 when absent) |
| EngineCommands.DropTrailingSpace | src/engine.js:199 | removes exactly the white space at the end of the text before `ownership` |
| EngineCommands.InfoPart | src/engine.js:199 | the text before the first `ownership`, without the white space in front of it, or the whole line when there is none |
| EngineCommands.ParseAll | src/engine.js:201 | `map(suggest_parser).filter(truep)`: no more suggestions than pieces, each the parse of some piece, and one per piece when every piece parses |
| EngineCommands.ParseAllAppend | src/engine.js:201 | `map(suggest_parser).filter(truep)` of two runs of pieces is that of the first run followed by that of the second |
| EngineCommands.ParseAllOne | src/engine.js:201 | one piece gives its parse, or nothing when it does not parse; with ParseAllAppend, every parsed piece is kept, in order |
| EngineCommands.InsertByOrder | src/engine.js:202 | inserting keeps the list sorted by `order` and adds exactly the one suggestion |
| EngineCommands.SortByOrder | src/engine.js:201-202 | the suggestions sorted by ascending `order`, and a permutation of the input |
| EngineCommands.InsertByOrderStable | src/engine.js:202 | inserting a suggestion puts it after every suggestion of the same `order` and moves none of them |
| EngineCommands.SortByOrderStable | src/engine.js:201-202 | the sort is stable: the suggestions of any one `order` keep their input order |
| EngineCommands.RanksMeaning | src/engine.js:210-215 | `add_order('visits', …)`: the ranks are 0 … n-1 without repeats, and j ranks before i exactly when j has more visits, or the same visits and comes earlier in the list |
| EngineCommands.Report | src/engine.js:201-215 | the sorted suggestions, their total visits and their visit ranks; stated by ReportMeaning |
| EngineCommands.ReportMeaning | src/engine.js:197-219 | the report holds the parsed suggestions sorted by `order`, their total visits, and the visit ranks |
| EngineCommands.SuggestReader | src/engine.js:197-219 | `suggest_reader` without the floating-point figures: the report of the pieces after each `info` of the text before `ownership` |
| EngineCommands.NnEvalFrom | src/engine.js:258 | no capture exactly when no `NN eval=` followed by a digit or dot occurs at or after the start index; otherwise the capture belongs to the first such occurrence and is its whole run of digits and dots |
| EngineSpec.Initial | src/engine.js:17-23 | a new session has an empty queue and log, no events, and its gate is shut (the queue and ids stand in for values the source leaves undefined, see Left out) |
| EngineSpec.UpToDate | src/engine.js:169 | `up_to_date_response()`: the last reply id is at least the last request id |
| EngineSpec.IsSupported | src/engine.js:301 | `is_supported(feature)`: the feature was probed and answered with success |
| EngineSpec.RequestsCons | src/engine.js:150 | the requests written for a list of parts are the first part's `<id> <cmd>` followed by the rest with the next ids |
| EngineSpec.TrySend | src/engine.js:147-154 | the next id, one more request `<id> <cmd>` written, the queue kept, and the handler, if any, registered under the new id; without a handler the settings are kept |
| EngineSpec.SendAll | src/engine.js:143 | sending the parts keeps the queue and the settings, and advances the request counter by the number of parts |
| EngineSpec.SendAllRequests | src/engine.js:143-153 | the parts go out in order as `<id> <cmd>` with consecutive ids after the last one |
| EngineSpec.Dispatch | src/engine.js:141-144 | dispatch keeps the settings and never lowers the request counter |
| EngineSpec.DispatchTakesFromFront | src/engine.js:141-144 | dispatch only removes entries from the front of the queue |
| EngineSpec.PopHead | src/engine.js:143 | one step removes exactly the head and keeps the settings |
| EngineSpec.DispatchGated | src/engine.js:142 | nothing changes while the queue is empty or a request is unanswered |
| EngineSpec.DispatchCommand | src/engine.js:141-154 | otherwise a command head is removed, its `;`-parts are written in order with consecutive ids, and dispatch stops |
| EngineSpec.DispatchMarker | src/engine.js:161-165 | a `lizgoban_set` marker writes nothing and uses no id; it sets the move count and turn, and dispatch goes on |
| EngineSpec.DispatchShutsGate | src/engine.js:142-150 | once a command has been sent, the gate is shut until it is answered |
| EngineSpec.SendToQueue | src/engine.js:130-139 | queueing keeps the settings and never lowers the request counter |
| EngineSpec.SendToQueueWhileBusy | src/engine.js:130-139 | while a request is unanswered, `send_to_queue` only prunes and pushes |
| EngineSpec.Leelaz | src/engine.js:111 | `leelaz` queues its command |
| EngineSpec.AnalysisCommand | src/engine.js:62-66 | the command text from the probed features and the arguments alone, shared by the session; its kind is stated by AnalysisCommandKind |
| EngineSpec.AnalysisCommandKind | src/engine.js:62-66 | the analysis command is one the pruning rules treat as analysis (`/^(lz\|kata)-analyze/`), and it is `kata-analyze` exactly when KataGo analysis was probed |
| EngineSpec.StartAnalysis | src/engine.js:62-68 | only queues commands |
| EngineSpec.Endstate | src/engine.js:73-75 | only queues commands |
| EngineSpec.Update | src/engine.js:112-115 | only queues commands |
| EngineSpec.SetPondering | src/engine.js:70-72 | the flag becomes the new value; nothing happens when it is unchanged |
| EngineSpec.SetPonderingWhileBusy | src/engine.js:62-72 | while a request is unanswered, a change only prunes and pushes the analysis command (pondering on) or `name` (pondering off); nothing is written |
| EngineSpec.SetPonderingIdle | src/engine.js:62-72 | with every request answered and nothing queued, a change writes the analysis command or `name` at once with the next id |
| EngineSpec.AnalysisCommandNoSemicolon | src/engine.js:63-66 | the analysis command has no `;`, so it goes out as one request |
| EngineSpec.MarkerFor | src/engine.js:156-160 | the marker of `update_move_count`: the history's length, and black to move unless the last move was black's |
| EngineSpec.ClearBoard | src/engine.js:116 | the engine's board copy becomes empty; what becomes of `clear_board` is stated by ClearBoardWhileBusy and ClearBoardIdle |
| EngineSpec.UpdateMoveCount | src/engine.js:156-160 | settings kept; what becomes of the marker is stated by MarkerQueuedWhileBusy and UpdateMoveCountIdle |
| EngineSpec.QueueOps | src/engine.js:103 | queueing the board commands keeps the settings |
| EngineSpec.SetBoard | src/engine.js:98-106 | afterwards the engine's board copy is the target history |
| EngineSpec.SyncBoard | src/engine.js:100-105 | the two loops and the conditional marker keep the settings and never lower the request counter; what they queue is stated by QueueOpsWhileBusy and BoardDiffReaches |
| EngineSpec.QueueOpsSnoc | src/engine.js:103 | one more board command is one more `leelaz` call |
| EngineSpec.QueueOpsAppend | src/engine.js:103 | queueing two runs of board commands is queueing one then the other |
| EngineSpec.QueueOpsWhileBusyPrunes | src/engine.js:103 | while busy, each board command only prunes and pushes |
| EngineSpec.QueueOpsWhileBusy | src/engine.js:98-108 | while busy, synchronising writes nothing and uses no id, and the queue ends with exactly the undo and play commands in order |
| EngineSpec.LastingSurvives | src/engine.js:171-175 | an entry that is not an analysis, endstate or peek command outlives every pruning |
| EngineSpec.PrunedTail | src/engine.js:130-138 | queueing a board command keeps a tail of lasting entries and puts the command after it |
| EngineSpec.SurvivorsSuffix | src/engine.js:131-137 | a tail of lasting entries survives pruning unchanged |
| EngineSpec.SetBoardEmptyWhileBusy | src/engine.js:98 | `set_board([])` while a request is unanswered writes nothing and leaves both `clear_board` and the marker for the empty history queued |
| EngineSpec.SetBoardEmptyIdle | src/engine.js:98 | `set_board([])` with every request answered and nothing queued writes `clear_board` first, with the next id |
| EngineSpec.ClearBoardWhileBusy | src/engine.js:116 | while a request is unanswered, `clear_board` waits in the queue after the update, nothing is written and the board copy is empty |
| EngineSpec.ClearBoardIdle | src/engine.js:116 | with every request answered and nothing queued, `clear_board` is written with the next id before anything the update writes |
| EngineSpec.LeelazIdle | src/engine.js:111 | with every request answered and nothing queued, `leelaz` of a `;`-free command writes exactly that command with the next id and leaves the queue empty |
| EngineSpec.MarkerQueuedWhileBusy | src/engine.js:156-160 | while a request is unanswered, the marker for the history waits in the queue after the update and nothing is written |
| EngineSpec.UpdateMoveCountIdle | src/engine.js:156-164 | with every request answered and nothing queued, the marker takes effect at once: the move count is the history's length and black is to move unless the last move was black's |
| EngineSpec.DispatchExtendsSent | src/engine.js:141-144 | dispatching only appends to what was written |
| EngineSpec.UpdateExtendsSent | src/engine.js:112-115 | `update()` only appends to what was written |
| EngineSpec.SendToQueueWhileBusyKeeps | src/engine.js:130-139 | while a request is unanswered, `send_to_queue(x)` writes nothing, leaves the gate shut, queues `x` and keeps every queued entry no command removes |
| EngineSpec.UpdateWhileBusyKeeps | src/engine.js:112-115 | while a request is unanswered, `update()` writes nothing and keeps every queued entry no command removes |
| EngineSpec.LeelazKeepsBoard | src/engine.js:111 | queueing a command behind commands only, with no marker, leaves the move count and turn alone |
| EngineSpec.UpdateKeepsBoard | src/engine.js:112-115 | `update()` with no marker queued leaves the move count and turn alone |
| EngineSpec.PeekValue | src/engine.js:119-125 | a peek leaves a continuation waiting for the network's evaluation |
| EngineSpec.PeekCommand | src/engine.js:121-124 | the five `;`-joined parts of a peek, stated by PeekCommandParts |
| EngineSpec.PeekCommandParts | src/engine.js:121-124 | the peek goes out in five parts: visits 1, the colour to move playing the move, a one-shot analysis, visits 0, undo |
| EngineSpec.OnReady | src/engine.js:83-92 | once only: ready, `komi`, then the probes; stated by StartSendsProbe |
| EngineSpec.Start | src/engine.js:38-51 | the new arguments, an empty queue, the reply id -2 and the `supported` map kept. Told to wait, the session is not ready and has sent nothing; otherwise it is ready. Reply handlers other than the first probe's id survive the restart |
| EngineSpec.CheckSupported | src/engine.js:294-300 | with rules left, the first one is sent with a handler for the rest; with none left, the board is cleared and the ready handler is called |
| EngineSpec.AfterAllChecks | src/engine.js:87 | `after_all_checks`: clear the engine's board, then call the ready handler |
| EngineSpec.RunProbe | src/engine.js:297-298 | a probe's handler records the answer for its feature |
| EngineSpec.StartSendsProbe | src/engine.js:83-92 | on start: komi goes out with id 0 and the first probe with id 1 and a handler. The queue is empty and the gate is shut |
| EngineSpec.StaleHandlerSurvivesStart | src/engine.js:49 | a handler registered before a restart stays, above the new request counter |
| EngineSpec.OnStdout | src/engine.js:185-195 | `stdout_reader`: the reply part, the analysis line when up to date, then dispatch; stated by the lemmas below |
| EngineSpec.AfterReply | src/engine.js:187-192 | the reply part of `stdout_reader`: a reply sets the reply id and correlates; any other line changes nothing |
| EngineSpec.Correlate | src/engine.js:190-191 | the handler for the id, if any, runs once with the flag and is dropped |
| EngineSpec.SuggestStep | src/engine.js:193 | an `info ` line goes to the suggestion handler only when every request is answered |
| EngineSpec.OnStderr | src/engine.js:249 | `reader(s)`: the line goes to the current reader |
| EngineSpec.ReplyCorrelation | src/engine.js:185-195 | a reply sets the last response id. A handler for its id runs once with `ok` true exactly for `=`, then it is removed |
| EngineSpec.AfterReplyCorrelation | src/engine.js:187-191 | the same as ReplyCorrelation, for the reply handling alone |
| EngineSpec.ProbeStep | src/engine.js:294-300 | answering a probe that has more probes after it: records the answer and sends the next probe with the next id and its handler. Nothing else is sent or queued, and no event is raised |
| EngineSpec.GatedReply | src/engine.js:193-194 | while a request is still unanswered after a reply, no analysis line is read and nothing is dispatched |
| EngineSpec.ProbeLast | src/engine.js:295 | the answer to the last probe records it and calls the ready handler once |
| EngineSpec.ReadyOnlyAtEnd | src/engine.js:294-300 | a standard-output line calls the ready handler exactly when it answers the last probe |
| EngineSpec.MainReaderLine | src/engine.js:251-260 | `main_reader`: the ready message, the wrong weights file, a peek's evaluation and the start of an endstate block, checked in that order |
| EngineSpec.ReadyStep | src/engine.js:256 | `Setting max tree size` or `GTP ready` runs `on_ready` |
| EngineSpec.WeightsStep | src/engine.js:257 | `Weights file is the wrong version` calls the error handler |
| EngineSpec.EvalStep | src/engine.js:258 | an `NN eval=` value answers a pending peek once, then updates |
| EngineSpec.EndstateStart | src/engine.js:259 | `endstate:` switches standard error to the endstate reader |
| EngineSpec.FinishEndstate | src/engine.js:278-281 | the endstate handler, if any, gets the buffered rows and the move count; stated by EndstateBlock |
| EngineSpec.EndstateReaderLine | src/engine.js:267-273 | a parsed row is buffered. The closing line hands the buffered rows and the move count to the endstate handler, if any, empties the buffer and switches back to the main reader |
| EngineSpec.InsideEndstateBlock | src/engine.js:249-273 | inside a block, every row line goes to the endstate reader |
| EngineSpec.EndstateRowsBuffered | src/engine.js:269-271 | row lines only append their rows to the buffer, in order |
| EngineSpec.EndstateRowStep | src/engine.js:269-271 | one row line appends its row |
| EngineSpec.EndstateBlock | src/engine.js:267-288 | a block of rows and then its sum line: the endstate handler is called once with all the rows in order and the move count, and the reader is back in main mode with an empty buffer |
| EngineSpec.OnStderrLinesAppend | src/engine.js:249 | reading two runs of lines is reading one then the other |
| EngineSession.Session.constructor | src/engine.js:17-23 | the fields start as a new session |
| EngineSession.Session.TrySend | src/engine.js:147-154 | takes the next id, writes `<id> <cmd>` and registers the handler, if any, under that id |
| EngineSession.Session.SendFromQueue | src/engine.js:141-144 | the new state is the dispatch of the old one |
| EngineSession.Session.PopQueue | src/engine.js:143 | removes the head of the queue |
| EngineSession.Session.SendParts | src/engine.js:143 | sends the parts in order |
| EngineSession.Session.SendToQueue | src/engine.js:130-139 | prunes, pushes and dispatches |
| EngineSession.Session.Leelaz | src/engine.js:111 | queues one command |
| EngineSession.Session.StartAnalysis | src/engine.js:62-68 | the new state is EngineSpec.StartAnalysis of the old one, with the command computed by the same EngineSpec.AnalysisCommand |
| EngineSession.Session.Endstate | src/engine.js:73-75 | queues `endstate_map` when there is a handler and the feature |
| EngineSession.Session.Update | src/engine.js:112-115 | endstate, then analysis |
| EngineSession.Session.SetPondering | src/engine.js:70-72 | the new state is EngineSpec.SetPondering of the old one, so a change queues or writes the analysis command or `name` as SetPonderingWhileBusy and SetPonderingIdle state |
| EngineSession.Session.ClearBoard | src/engine.js:116 | the new state is EngineSpec.ClearBoard of the old one, so `clear_board` is queued or written as ClearBoardWhileBusy and ClearBoardIdle state |
| EngineSession.Session.UpdateMoveCount | src/engine.js:156-160 | the new state is EngineSpec.UpdateMoveCount of the old one, so the marker is queued or in effect as MarkerQueuedWhileBusy and UpdateMoveCountIdle state |
| EngineSession.Session.SetBoard | src/engine.js:98-106 | the new state is the board synchronisation of the old one |
| EngineSession.Session.RecordBoard | src/engine.js:105 | remembers the history as the engine's board |
| EngineSession.Session.SyncBoard | src/engine.js:100-105 | queues the undos, the plays and the closing update |
| EngineSession.Session.MarkIfChanged | src/engine.js:104 | updates the move count only when commands were queued |
| EngineSession.Session.QueueUndos | src/engine.js:103 | queues n undos |
| EngineSession.Session.QueuePlays | src/engine.js:103 | queues the plays in order |
| EngineSession.Session.PeekValue | src/engine.js:119-125 | arms the evaluation reader and queues the peek |
| EngineSession.Session.CheckSupported | src/engine.js:294-300 | sends the first probe with its handler, or finishes the checks |
| EngineSession.Session.OnReady | src/engine.js:83-92 | once only: sends komi and starts the probes |
| EngineSession.Session.Start | src/engine.js:38-51 | new arguments, gate shut, empty queue, then `on_ready` unless told to wait |
| EngineSession.Session.Reset | src/engine.js:42-49 | the assignments at the start of `start` |
| EngineSession.Session.SetConfig | src/engine.js:42-44 | new arguments, not ready |
| EngineSession.Session.ResetIds | src/engine.js:49 | empty queue and the counters of `block_commands_until_ready` |
| EngineSession.Session.Restart | src/engine.js:52 | starts again with the given arguments or the old ones |
| EngineSession.Session.StartArgs | src/engine.js:117 | the current arguments |
| EngineSession.Session.IsKatago | src/engine.js:302 | true exactly when the `kata-analyze` probe succeeded |
| EngineSession.Session.OnStdout | src/engine.js:185-195 | reply handling, then the analysis line, then dispatch |
| EngineSession.Session.HandleReply | src/engine.js:187-192 | records the reply id and runs and drops its handler |
| EngineSession.Session.RecordReply | src/engine.js:189 | sets the last response id |
| EngineSession.Session.Correlate | src/engine.js:190-191 | runs and drops the handler for the id |
| EngineSession.Session.RunProbe | src/engine.js:297-298 | records the answer and goes on with the remaining probes |
| EngineSession.Session.DropHandler | src/engine.js:191 | removes the handler |
| EngineSession.Session.ReadSuggest | src/engine.js:193 | reports an analysis line only when every request is answered |
| EngineSession.Session.OnStderr | src/engine.js:249 | a line goes to the current reader |
| EngineSession.Session.MainReaderLine | src/engine.js:251-260 | readiness, wrong weights, evaluation, endstate start, in that order |
| EngineSession.Session.ReadReady | src/engine.js:256 | a ready message runs `on_ready` |
| EngineSession.Session.ReadWeights | src/engine.js:257 | a wrong weights file calls the error handler |
| EngineSession.Session.ReadEval | src/engine.js:258 | hands an evaluation to a waiting peek once, then updates |
| EngineSession.Session.ReadEndstateStart | src/engine.js:259 | `endstate:` switches to the endstate reader |
| EngineSession.Session.EndstateReaderLine | src/engine.js:267-273 | the new state is the endstate reader's step |
| EngineSession.Session.BufferRow | src/engine.js:271 | appends a row |
| EngineSession.Session.FinishEndstate | src/engine.js:278-281 | hands the rows and move count to the handler, if any |
| EngineSession.Session.ResetEndstateReader | src/engine.js:271 | empties the buffer and returns to the main reader |
| Game.Registry.constructor | src/game.js:20 | both counters start at 0 |
| Game.Registry.NewGameId | src/game.js:21 | returns the counter and advances it by one |
| Game.Registry.NewTagForGame | src/game.js:144-152 | the tag is a normal tag letter, the one the cyclic scan picks, and the tag counter moves past it |
| Game.UsedTagsMeaning | src/game.js:145 | a character is among the used tags exactly when some record's tag contains it |
| Game.FirstUnusedIndex | src/game.js:146-147 | the first candidate not used by the game, or -1 when all are used |
| Game.TagIndex | src/game.js:146-149 | the chosen index is inside the normal tag letters |
| Game.CyclicPick | src/game.js:146-149 | the chosen index is inside the letters |
| Game.CyclicScan | src/game.js:144-152 | when some letter is unused, the pick is unused and every letter scanned before it from the counter on is used. When all are used, the pick is the counter itself |
| Game.TagIndexChoice | src/game.js:144-152 | the same for the normal tag letters |
| Game.Game.constructor | src/game.js:23-31 | the given history, or an empty one when none is given; the given properties, or the defaults with the next game id when none are given |
| Game.Game.Len | src/game.js:34 | the history length |
| Game.Game.IsEmpty | src/game.js:35 | true exactly for an empty history |
| Game.Game.Ref | src/game.js:36 | 1-based: record `mc - 1` when `1 <= mc <= len`, nothing otherwise |
| Game.Game.ArrayUntil | src/game.js:37 | the first `mc` records (all when fewer), unchanged |
| Game.Game.LastMove | src/game.js:39 | the move of the last record, nothing for an empty history |
| Game.Game.ShortenTo | src/game.js:38 | keeps exactly the first `mc` records and returns the removed tail |
| Game.Game.Push | src/game.js:56-58 | appends a record |
| Game.Game.Pop | src/game.js:56-58 | removes and returns the last record, nothing when empty |
| Game.Game.SetLastLoadedElement | src/game.js:40 | the last loaded element is the last record |
| Game.Game.SetWithReuse | src/game.js:44-48 | afterwards the history matches the new one in length, moves and colours. The first k records are the old objects and the rest are the new ones |
| Game.Game.ShallowCopy | src/game.js:41-43 | a new game with the same records and the current properties, the next game id (larger than the original's when that came from the counter), and no last loaded element |
| Game.Game.ShallowCopyAsWritten | src/game.js:41-43 | as written: the properties of the copy come from those the game was created with |
| Game.Game.NewTagMaybe | src/game.js:139-143 | a new sequence gets the normal tag letter the cyclic scan picks from the tag counter over the letters the history uses, and the counter moves past it. Otherwise the result is the last-loaded letter exactly when `ref(mc)` is the last loaded element, and nothing else |
| Game.ShallowCopyLosesPlayerNames | src/game.js:41-43 | a copy made as written of a game whose player name was set after creation has no player name |
| Game.ShallowCopyKeepsPlayerNames | src/game.js:41-43 | the corrected copy keeps the player name and has a larger id |
| Game.NodesPlaysAppend | src/game.js:126 | the moves of two runs of nodes are the moves of each, one after the other |
| Game.NodesPlaysSnoc | src/game.js:126 | the moves of one more node follow those of the nodes before it |
| Game.AppendPositions | src/game.js:120-125 | the positions of one colour become records numbered on from the history, skipping empty moves; earlier records are untouched |
| Game.AppendNode | src/game.js:126 | a node contributes its setup stones, then its black moves, then its white moves |
| Game.HistoryFromSabakiNodes | src/game.js:118-128 | the records carry the moves of the nodes in order, numbered 1, 2, 3, … without tags |
| Game.NodesFromSabakiGametree | src/game.js:130-133 | the nodes of the ancestors, root first, then the tree's own; stated by AncestorNodesFirst |
| Game.AncestorNodesFirst | src/game.js:130-133 | every ancestor's nodes come first, and the tree's own nodes come last |
| Game.FirstChildChain | src/game.js:93 | the inner `recur`: the node's data, then its first child's chain; stated by FirstChildChainMeaning |
| Game.FirstChildChainMeaning | src/game.js:93 | the chain is the data of the node, its first child, that child's first child, and so on until there is none |
| Game.ConvertToSabakiSgfV131Maybe | src/game.js:86-97 | nothing for an empty parse. An input in the 1.3.1 layout is returned unchanged. Otherwise there is one tree of the first-child chain with no parent |

## Left out

- Process spawning, `kill`, the stream listeners and the exit/error wiring are operating-system I/O (src/engine.js:38-60). `start` is the reset of the session fields followed by `on_ready`. Writes to the engine are the `sent` log.
- `kill()` and `network_size()` are not modelled. The network size is read from standard error by a free-text regular expression.
- Logging (`log`, `debug_log`) is console output.
- The speedometer and its reset in `try_send_to_leelaz` depend on the clock and floating-point division.
- EngineSpec.Update: `update_later` debounces with a timer. The model always takes the immediate `update_now`.
- EngineSession.Session.Restart: `restart(h)` merges a partial argument object into the old one. The model takes either a whole new argument record or the old one.
- The `lizgoban_set` marker's JSON text is a tagged queue entry. The source takes any command whose text contains `lizgoban_set ` as a marker (its test is an unanchored match). The model tells markers from commands by the entry's tag, so a command from the application that happens to contain `lizgoban_set ` is sent to the engine in the model, while the source would read it as a marker. The commands the session builds itself never contain that text.
- EngineCommands.BoardCommandSurvives requires that the move text of a play does not contain `undo`. GTP vertices and `pass` never do.
- Floating-point analytics are left out:
  - winrate, prior, lcb and score scaling, and visit-weighted averages;
  - `b_winrate`, `visits_per_sec`, `winrate_order` and `scoreStdev`;
  - the ownership parser and its sign flip.
- Suggestions keep their text fields as parsed, plus `visits` and `order` through `to_i`.
- Endstate values are the integers `to_i` reads, in thousandths, instead of `/ 1000`.
- A peek's evaluation is the text the regular expression captures, not a number.
- JsString.ToI: exponent, hexadecimal and `Infinity` spellings read as 0 (NaN). JavaScript reads a number from them. The engine never sends them in ids, visits, order or endstate rows.
- JsString.ToI: `x | 0` of a text goes through a double in JavaScript, so digit text above 2^53 is rounded before the 32-bit cut. The model reads the digits exactly.
- Util.StrUniq: a Dafny `string` is a sequence of Unicode scalar values, while JavaScript strings are UTF-16 code units. `split('')` (src/util.js:74) cuts a character outside the Basic Multilingual Plane into two surrogates and can keep one of them alone; the model keeps the whole character.
- Util.SnipText: the source counts and cuts lengths in UTF-16 code units (src/util.js:88-90); the model counts characters, so the two differ on text with characters outside the Basic Multilingual Plane.
- EngineSpec.PeekValue: each `peek_value` overwrites the one evaluation reader (src/engine.js:120), so with two peeks in flight the first evaluation goes to the second continuation and the first continuation is never called. The model keeps one `peekPending` flag and a `PeekResult` event without the continuation, so it cannot say whose continuation ran.
- Util.ChangeDetector.IsChanged: JavaScript's loose `!=` is taken as plain inequality of one value type. Comparisons across types are not modelled.
- Util.Clip works on integers. The source also clips floats.
- `sgfpos2move` comes from coord.js, which is not part of this model. `toMove` is a function parameter for it, and an empty result means a falsy move.
- SGF serialisation and parsing (`game_to_sgf`, `import_sgf`, `parse_sgf`, `clip_sgf`) call the @sabaki/sgf library.
- `load_sabaki_gametree_to_game` is not modelled as one operation. Its parts are modelled:
  - flattening the tree (Game.AncestorNodesFirst);
  - the history (Game.HistoryFromSabakiNodes);
  - `set_with_reuse`;
  - `set_last_loaded_element`.
- The game's `map`, `forEach`, `slice` and `splice` pass-throughs are plain array methods. Only `push` and `pop` are modelled.
- Before the first `start`, the arguments are the placeholder `NO_ARGS`, the queue is empty and the request and reply ids are -1 and -2. In the source all of these are undefined until `start` (src/engine.js:18), so a `leelaz` or `send_to_queue` before `start` throws at `command_queue.filter` (src/engine.js:131). The model accepts such calls, and EngineSpec.Initial and EngineSession.Session.constructor describe that placeholder state.

## Findings

| source | as written | input that shows it | evidently intended | confidence | as-written member | corrected member |
|---|---|---|---|---|---|---|
| src/game.js:41-43 | `shallow_copy` builds the copy's properties from `prop`, the object the game was created with. Later assignments such as `player_black`, `player_white`, `trial` (src/game.js:111-112) and `sgf_str` (src/game.js:76) go to the game object itself, so the copy loses them | a new game whose `player_black` is then set to "Honinbo"; its copy has `player_black` "" | the copy carries the game's current properties, with a fresh id and no last loaded element | medium, not executed | Game.Game.ShallowCopyAsWritten, Game.ShallowCopyLosesPlayerNames | Game.Game.ShallowCopy, Game.ShallowCopyKeepsPlayerNames |
