# Verified model of the MINI-V vendor AI daemon

The daemon keeps conversations with a language model alive in a two-tier cache: a few HOT sessions own a live
`llama_context`, all others are COLD, either new or swapped out to a file, and the COLD tier lives on a byte budget.
Around that cache sit the inference loop, a line protocol over a socket with base64-coded tokens, and a HAL whose
requests can be cancelled. This project models those parts and proves what they promise, for every input, every run and
every way `Foreign.dfy` lets the foreign code succeed or fail. `dafny verify dfyconfig.toml` checks all of it.

## How the model is built

- `Foreign.dfy`: llama contexts (cells with positions), swap files, the clock. Every free choice of the foreign code (a
  call succeeds or fails, the size of a state, the time, the sampled token, a raised cancel flag) is read from an `Env` at
  the current tick, so a statement for every `Env` covers every behaviour. A failed save may leave the file as it was or
  ruin it; a load fails if the file holds more tokens than the buffer; a failed decode may leave a prefix of its tokens in
  the cache; removing a part of a sequence from the cache may be refused and then changes nothing.
- `LruList.dfy`: `std::list` with stored iterators. A node carries the handle of its iterator; handles are never reused,
  and `Erase` demands that the handle is in the list it is applied to.
- `SessionState.dfy`, `SessionSpec.dfy`, `InferSpec.dfy`: the manager's state as a value, its invariant, and one function
  per method. `SessionManager.dfy`, `Llama.dfy` and `LlmEngine.dfy` hold the classes with the fields, in-place updates and
  loops of the source (the longest methods are split into consecutive parts, each citing its lines below); each method
  is proved to do exactly what its function says (`SessionSpec.KillSession` specifies
  `SessionManager.Manager.KillSession`, and so on), so what is proved of the functions holds of the classes.
- `Runs.dfy` defines whole runs: any sequence of calls on a fresh manager. A run that reaches undefined behaviour is
  `Crashed`. `Views.dfy`, `ColdTier.dfy`, `LruOrder.dfy`, `EveryRun.dfy`, `Limits.dfy` and `Recency.dfy` prove the properties,
  `CornerCases.dfy` gives the runs on which a promise fails. `LruOrder.dfy` orders the sessions by the stamps they carry,
  `Recency.dfy` by the calls that used them, without a clock, and shows that the stamps are the times of those calls.
- `Powers.dfy`, `Base64.dfy`, `Lines.dfy`, `Decimal.dfy`, `Protocol.dfy`, `Framing.dfy`: codec, `fgets`, numbers and words,
  and both ends of the socket protocol.
- `Daemon.dfy` puts it together: the classes under any sequence of calls end in the state of the run, the command loop
  works on the engine, and one inference is followed from the client's command line to its screen. `Commands.dfy` says
  for each command what its line does to the manager's state and what is written back.
- `CancelProtocol.dfy`: the HAL's request threads and cancel calls as interleaved steps.

## Where the code does not do what is expected of it

- `activateForInfer` keeps a reference to the session's entry while it makes room. The eviction can kill that very
  session. `ColdTier.SafeToActivate` says which activations are safe, by the state before the call alone;
  `ColdTier.DanglesExactlyWhen` and `EveryRun.DanglesInAFullTier` say when it happens, `CornerCases.TakingTurnsDangles`
  gives a family of runs, and the model stops there (`Dangling`, `UseAfterErase`).
- `activateForInfer` makes a session HOT whether or not room could be made for it. The HOT bound is broken exactly by a call
  that does so while the tier is full and its front session cannot be saved (or has id -1), and by a `setHotLimit` below the
  tier's size one of whose saves fails (`EveryRun.HotBoundInEveryRun`, `CornerCases.FailedSaveBreaksHotBound`,
  `CornerCases.SentinelBreaksHotBound`).
- Id -1 also means "no victim" and "exclude nobody". The structural invariant, the byte counter and the COLD budget hold
  for it all the same. Beside the HOT bound it concerns the LRU order, which is broken only by a `setHotLimit` that takes out
  somebody used later than a HOT session -1, which it skips (`EveryRun.LruOrderInEveryRun`, `Recency.UseOrderInEveryRun`,
  `CornerCases.SentinelBreaksOrder`). A swapped session -1 survives every new budget and takes its bytes from the others
  (`ColdTier.NewBudget`).
- `infer` records a generated token before it is decoded. If that decode fails and leaves the token out, the cache lags
  behind the token vector for the rest of the session's life (`CornerCases.FailedDecodeLags`). A prefill that fails is not
  recorded, and what it leaves in the cache puts the cache ahead of the vector (`CornerCases.FailedPrefillLeads`).
- `pruneOldestTokens` does not look at the result of `llama_memory_seq_rm`. If the removal is refused, the other cells still
  move down and the vector still loses its prefix, so the cache keeps cells under positions that are in use
  (`CornerCases.RefusedPruneMisaligns`). Such cells sink with every later prune and are gone once later prunes have dropped
  as many tokens (`Views.NothingStaleIff`, `Views.RefusedPruneHeals`).
  `Runs.SwappingIsTransparent` puts these together: cache and vector agree if and only if no failed decode of the session
  left its generated token out, no failed prefill left tokens behind, and every refused prune was made good. Only where both
  kinds of failed decode have happened to one session, the tokens themselves decide (`CornerCases.FailuresMayCancelOut`).
- A comment in `infer` says that false means the session was not found; false is also returned when the prefill fails
  (`InferSpec.InferReports`). The model follows the code.
- Without a loaded engine `KILL_SESSION` and the limit commands go through a null pointer; an `INFER` with a negative count
  throws when room is reserved for that many tokens, once the prefill has succeeded. `Daemon.HandleClient` stops there.
- A prompt is cut short when a chunk of it begins with `END`, at a line start or at a multiple of 4095 characters within a
  line; a model path with white space, or longer than 511 characters, does not arrive (`Framing.RequestsRoundTrip`).
- Of two overlapping requests for one session, the first to end removes the other's cancel flag
  (`CancelProtocol.OverlapLosesTheFlag`).
- The client prints decoded tokens as C strings and so drops what follows a NUL byte (`Framing.PrintsEverythingUnlessNul`).

## Model

| member | source | states |
|---|---|---|
| `SessionManager.Manager.constructor` | daemon/src/session_manager.cpp:18-21 | a new manager is empty, has the default limits and satisfies the invariant |
| `SessionManager.Manager.CreateSession` | daemon/src/session_manager.cpp:45-57 | refuses a known id; otherwise exactly the specified new entry appears |
| `SessionManager.Manager.KillSession` | daemon/src/session_manager.cpp:59-75 | the session's node, context or bytes and file go, nothing else changes; the erase is through a live iterator and the byte subtraction cannot underflow |
| `SessionManager.Manager.ActivateForInfer` | daemon/src/session_manager.cpp:77-92 | HOT hit, eviction first otherwise; the whole new state and the outcome (context, null, dangling) are the specified ones, and the invariant survives unless dangling |
| `SessionManager.Manager.Admit` | daemon/src/session_manager.cpp:94-127 | init, load and promotion in the source's order, with every failure return |
| `SessionManager.Manager.LoadSwapped` | daemon/src/session_manager.cpp:100-119 | on a failed load the new context is freed and only the token buffer was resized; on success tokens, list, counter and file are updated |
| `SessionManager.Manager.Promote` | daemon/src/session_manager.cpp:121-126 | the session takes the context and joins the end of the HOT list under a fresh node |
| `SessionManager.Manager.RecordTokens` | daemon/src/session_manager.cpp:129-138 | appends to the vector and touches a HOT session |
| `SessionManager.Manager.TouchHot` | daemon/src/session_manager.cpp:140-145 | the whole new state is the specified one, through a live iterator; what that means is `Recency.ActivationRefreshes` and `Recency.RecordRefreshes` |
| `SessionManager.Manager.FindHotVictim` | daemon/src/session_manager.cpp:149-155 | the loop finds the first HOT session that is not excluded, or -1 |
| `SessionManager.Manager.EvictHotIfNeeded` | daemon/src/session_manager.cpp:147-163 | the loop terminates and does what the recursive specification says |
| `SessionManager.Manager.PruneOldestTokens` | daemon/src/session_manager.cpp:165-179 | the vector loses its leading tokens and the other cells move down in any case; the cache loses the same positions unless the removal is refused |
| `SessionManager.Manager.SaveLoop` | daemon/src/session_manager.cpp:185-201 | the unbounded loop terminates and ends in the specified world, vector and size |
| `SessionManager.Manager.SwapOut` | daemon/src/session_manager.cpp:181-216 | whole new state and result are the specified ones and keep the invariant, on success and on failure |
| `SessionManager.Manager.Demote` | daemon/src/session_manager.cpp:203-212 | the session gives up its context and moves to the end of the COLD list, charged with its bytes |
| `SessionManager.Manager.EvictColdIfNeeded` | daemon/src/session_manager.cpp:218-230 | the loop terminates and does what the recursive specification says |
| `SessionManager.Manager.SetHotLimit` | daemon/src/session_manager.cpp:31-34 | limit of at least one, then eviction |
| `SessionManager.Manager.SetColdLimit` | daemon/src/session_manager.cpp:36-39 | the whole new state is the specified one; what that means is `ColdTier.NewBudget` |
| `SessionManager.Manager.Destroy` | daemon/src/session_manager.cpp:23-29 | every live context is freed, each exactly once, and none is left |
| `LlmEngine.Engine.Infer` | daemon/src/llm_engine.cpp:64-123 | answer, emitted tokens and new state are the specified ones |
| `LlmEngine.Engine.DecodeLoop` | daemon/src/llm_engine.cpp:92-119 | the loop ends in the specified world with the specified tokens; which tokens those are is `InferSpec.DecodeLoopGenerates` |
| `SessionState.PathForInjective` | daemon/src/session_manager.cpp:41-43 | two sessions never share a swap path |
| `SessionSpec.SwappedBytes` | daemon/src/session_manager.cpp:70-116 | the counter covers the bytes of every swapped session |
| `SessionSpec.KillKeepsInv` | daemon/src/session_manager.cpp:59-75 | killing keeps the whole invariant and shortens the COLD list when the session is in it |
| `SessionSpec.EvictCold` | daemon/src/session_manager.cpp:218-230 | keeps the invariant and ends within the budget or with at most one swapped session |
| `SessionSpec.SwapOut` | daemon/src/session_manager.cpp:181-216 | keeps the invariant on success and on failure |
| `SessionSpec.ActivateKeepsInv` | daemon/src/session_manager.cpp:77-127 | keeps the invariant on every path that is defined behaviour |
| `SessionSpec.EvictColdLosesOnlyCold` | daemon/src/session_manager.cpp:218-230 | eviction for the budget touches swapped sessions only |
| `InferSpec.InferReports` | daemon/src/llm_engine.cpp:64-123 | true if and only if activated and prefilled; then prompt and emitted tokens, in order and bounded, are what was recorded; on false nothing was |
| `InferSpec.DecodeLoopGenerates` | daemon/src/llm_engine.cpp:92-119 | the tokens are the ones sampled round by round, as long as the flag is down, the text does not end and the decode before succeeded, up to the count |
| `InferSpec.GeneratedIsUnique` | daemon/src/llm_engine.cpp:92-119 | by what the world answers there is exactly one such sequence of tokens |
| `InferSpec.InferEmits` | daemon/src/llm_engine.cpp:83-122 | every emitted token was sampled with the flag down and does not end the text; an inference stops short of its count only if the flag is up, the text ended or the last decode failed; the session's stamp is the time at its end |
| `Foreign.PruneRealigns` | daemon/src/session_manager.cpp:173-176 | after seq_rm and seq_add a gap-free cache is gap-free from position 0 again and holds the remaining tokens |
| `Foreign.AnyPrefixMayBeLeft` | daemon/src/llm_engine.cpp:85-118 | the model lets a failed decode leave any prefix of its tokens in the cache, and nothing else |
| `Views.SaveLoopPrunes` | daemon/src/session_manager.cpp:185-201 | however often it prunes and whatever is refused, the loop keeps a suffix of the tokens, and cache and vector stand to each other as its rounds tell |
| `Views.PruneIsRound` | daemon/src/session_manager.cpp:165-179 | one prune, by its size and whether it was refused: how many positions are stale afterwards, and that a lag stays |
| `Views.NothingStaleIff` | daemon/src/session_manager.cpp:174-178 | nothing stale is left after some prunes if and only if every refused one was followed by prunes of at least as many tokens |
| `Views.RefusedPruneHeals` | daemon/src/session_manager.cpp:174-178 | a refused prune misaligns a cache, and a later one of at least that size that is not refused aligns it again |
| `Views.SavedFileHoldsView` | daemon/src/session_manager.cpp:186-201 | the file on disk holds the final pruned state, not an earlier one |
| `Views.SwapOutPrunesViews` | daemon/src/session_manager.cpp:181-216 | what the victim has stored changes by the rounds of the save loop, what others have stored not at all |
| `Views.SwapOutKeepsAllUnlessPruned` | daemon/src/session_manager.cpp:181-216 | a swap-out preserves the stored view if and only if it did not prune |
| `Views.SwapInRestores` | daemon/src/session_manager.cpp:94-127 | a swapped session comes back, exactly as saved, if and only if init and load succeed and its tokens fit n_ctx; otherwise its file is untouched |
| `Views.ActivatePrunesViews` | daemon/src/session_manager.cpp:77-127 | an activation changes what is stored by the prunes of its evictions only |
| `Runs.SwappingIsTransparent` | daemon/src/session_manager.cpp:77-216 | in every run each session's stored tokens are exactly those recorded for it since it was created less the first ones, as many as its prunes dropped, and, unless it has seen both kinds of failed decode, cache and tokens agree if and only if no failed decode left a generated token out, no failed prefill left tokens behind, and every refused prune was made good by later ones |
| `Runs.InferRecords` | daemon/src/llm_engine.cpp:83-121 | one inference appends what it recorded to that session alone; the cache keeps up exactly if no generated token was left out and no failed prefill left tokens behind; a lag or a lead of the cache stays |
| `Runs.GenerateView` | daemon/src/llm_engine.cpp:83-121 | exactly what one inference makes of the session's cache and token vector, on a successful and on a failed prefill |
| `Runs.DecodeLoopCells` | daemon/src/llm_engine.cpp:96-119 | the cache gains all generated tokens, or all but the last one if its decode failed and left it out |
| `Runs.Exec` | daemon/include/session_manager.h:10-66 | every run that is defined behaviour keeps the invariant, on every success and failure path |
| `EveryRun.EveryRunIsWellFormed` | daemon/include/session_manager.h:10-66 | in every reachable state the lists, iterators, entries, byte counter and swap files agree, and the live contexts are exactly those of the HOT sessions, one each |
| `EveryRun.ColdBudgetInEveryRun` | daemon/src/session_manager.cpp:36-39 | in every reachable state the budget holds or at most one session is swapped, whatever fails |
| `EveryRun.HotBoundInEveryRun` | daemon/src/session_manager.cpp:31-163 | whatever fails, the HOT tier stays within its limit throughout a run if and only if no call makes a COLD session HOT while the tier is full and its front is session -1 or cannot be saved, or sets a lower limit and fails to save one of those it takes out |
| `EveryRun.ApplyHotBound` | daemon/src/session_manager.cpp:31-163 | the same for one call in a state within the limit |
| `EveryRun.ActivateHotBound` | daemon/src/session_manager.cpp:83-126 | an activation ends above the limit if and only if the tier is full, its front stays, a context can be made and a swapped session can be loaded and fits |
| `EveryRun.EvictHotDownTo` | daemon/src/session_manager.cpp:147-163 | eviction for a new limit gets down to it if and only if the saves it takes succeed |
| `EveryRun.EvictHotMakesRoom` | daemon/src/session_manager.cpp:147-163 | eviction gets below the limit if and only if no swap-out failed, which takes a failed save, and session -1 was not among those to be taken out |
| `EveryRun.SetHotLimitMakesRoom` | daemon/src/session_manager.cpp:31-34 | with working saves the HOT tier ends within the new limit, and strictly below it if and only if the limit is above one or session -1 is not HOT |
| `EveryRun.LruOrderInEveryRun` | daemon/src/session_manager.cpp:31-163 | with a monotone clock, COLD list followed by HOT list is sorted by last use throughout a run if, and with working saves only if, no new HOT limit takes out a session used later than a HOT session -1 |
| `LruOrder.SetHotLimitOrdered` | daemon/src/session_manager.cpp:31-163 | the same for one new HOT limit in a sorted state |
| `Recency.ActivationRefreshes` | daemon/src/session_manager.cpp:83-145 | every activation that succeeds, HOT hits included, puts its session at the end of the HOT list with a time of this call; the other nodes that the eviction left keep their order and their entries |
| `Recency.RefusalLeavesAll` | daemon/src/session_manager.cpp:77-111 | an activation that is refused leaves everything as its eviction left it, but that a failed load has resized the session's token vector |
| `Recency.RecordRefreshes` | daemon/src/session_manager.cpp:129-145 | recording does the same to a HOT session, only appends to a COLD one, and does nothing for an unknown id |
| `Recency.UseOrderInEveryRun` | daemon/src/session_manager.cpp:31-230 | without a clock and whatever fails, COLD list followed by HOT list is strictly sorted by the call that used each session last if, and with working saves only if, no new HOT limit reaches past a HOT session -1 |
| `Recency.LastUseIsLastInference` | daemon/src/session_manager.cpp:83-126 | the call that used a session last is the last inference on it, as long as none was refused |
| `Recency.StampsInEveryRun` | daemon/src/session_manager.cpp:125-144 | in every run the stamp of a HOT or swapped session is the time at a tick of the call that used it last |
| `Recency.VictimWasUsedFirst` | daemon/src/session_manager.cpp:147-163 | the HOT victim is the HOT session whose last inference lies furthest back |
| `Recency.KilledWereUsedFirst` | daemon/src/session_manager.cpp:36-39 | whoever a new budget kills was used before every listed session that is kept |
| `Limits.LimitsInEveryRun` | daemon/src/session_manager.cpp:31-39 | after any calls both limits are the ones asked for last, three and 512 MiB before the first, and the COLD tier is within that budget or down to one session |
| `Limits.EvictHotTakesNoMore` | daemon/src/session_manager.cpp:147-163 | HOT eviction stops as soon as the tier is below its limit, and takes out exactly as many sessions as it swaps out |
| `EveryRun.SwapFilesMatchSessions` | daemon/src/session_manager.cpp:71-207 | with working saves the existing swap files are exactly those of the swapped sessions |
| `EveryRun.DanglesInAFullTier` | daemon/src/session_manager.cpp:83-92 | with a full HOT tier the activated session is lost if and only if the state written for the victim exceeds the budget together with it and all younger swapped sessions |
| `LruOrder.HotVictimIsLru` | daemon/src/session_manager.cpp:149-155 | the HOT victim was used no later than any HOT session |
| `LruOrder.KilledAreLru` | daemon/src/session_manager.cpp:218-229 | whoever is killed for the budget was used no later than any listed session that is kept |
| `LruOrder.EvictHotOrdered` | daemon/src/session_manager.cpp:147-216 | moving victims between the tiers keeps the order unless a skipped session was used earlier than one that is taken out |
| `ColdTier.SurvivesColdEviction` | daemon/src/session_manager.cpp:218-229 | a swapped session survives if and only if it and all younger ones fit the budget, or it is the excluded one |
| `ColdTier.SparedByColdEviction` | daemon/src/session_manager.cpp:218-230 | the same wherever the excluded session stands: the others have to fit beside it |
| `ColdTier.NewBudget` | daemon/src/session_manager.cpp:36-39 | the budget becomes the one asked for, a swapped session stays if and only if it fits together with all younger ones (and a swapped session -1), and nothing else changes |
| `ColdTier.EvictColdDropsPrefix` | daemon/src/session_manager.cpp:218-229 | the killed sessions are the oldest ones, in order |
| `ColdTier.KillingIsLastResort` | daemon/src/session_manager.cpp:185-216 | a swap-out spares its own session, kills nobody if and only if the session fits or no other is swapped, and kills only after pruning to 64 tokens |
| `ColdTier.PruningIsLogarithmic` | daemon/src/session_manager.cpp:185-201 | a victim of at most 64 * 2^k tokens is pruned at most 3k times, each time by at least one token, never below 64 |
| `ColdTier.PruningIsExact` | daemon/src/session_manager.cpp:185-201 | which rounds the save loop makes, by what the world answers: each follows a save that succeeded and did not fit and finds more than 64 tokens, and drops a quarter rounded down or down to 64; the loop ends at the first save that fails, fits or has at most 64 tokens, with the size measured then |
| `ColdTier.PruningIsGentle` | daemon/src/session_manager.cpp:193-200 | over all prunes at least (3/4)^rounds of the history is kept; a victim is pruned if and only if it was saved, does not fit and has more than 64 tokens |
| `ColdTier.SurvivesHotEviction` | daemon/src/session_manager.cpp:147-216 | over any number of evictions, a swapped session is spared if and only if all bytes written meanwhile fit beside it and the younger ones |
| `ColdTier.DanglesExactlyWhen` | daemon/src/session_manager.cpp:83-100 | exactly when an activation goes on with an entry its own eviction killed |
| `ColdTier.SafeToActivate` | daemon/src/session_manager.cpp:83-100 | whatever the foreign code does, an activation cannot lose its session if and only if the session is not swapped, the HOT tier has room, or there is no victim |
| `ColdTier.NeverDangles` | daemon/src/session_manager.cpp:83-92 | a new session, a tier with room, or victims that fit: no dangling |
| `CornerCases.TakingTurnsDangles` | daemon/src/session_manager.cpp:83-100 | two sessions taking turns with room for one and a half reach the dangling entry |
| `CornerCases.SentinelBreaksHotBound` | daemon/src/session_manager.cpp:149-157 | with id -1 in use the HOT bound fails although nothing else does |
| `CornerCases.FailedSaveBreaksHotBound` | daemon/src/session_manager.cpp:83-161 | with failing saves the HOT bound fails without id -1 |
| `CornerCases.SentinelBreaksOrder` | daemon/src/session_manager.cpp:149-155 | a new HOT limit skips session -1 and leaves the session used last in front of it |
| `CornerCases.FailedDecodeLags` | daemon/src/llm_engine.cpp:96-119 | a run whose first generated token is recorded and not decoded: the cache lags |
| `CornerCases.FailedPrefillLeads` | daemon/src/llm_engine.cpp:83-88 | a run whose prefill fails and leaves tokens in the cache that are not recorded |
| `CornerCases.FailuresMayCancelOut` | daemon/src/llm_engine.cpp:83-119 | a run with both failures: whether cache and vector agree is up to the token sampled |
| `CornerCases.RefusedPruneMisaligns` | daemon/src/session_manager.cpp:174-178 | a run in which every decode succeeds and a refused prune leaves cache and tokens apart |
| `Base64.Base64Encode` | daemon/include/base64_util.h:5-26 | the loops compute the accumulator function with a 32-bit register that never overflows on addition |
| `Base64.Base64Decode` | daemon/include/base64_util.h:28-46 | the same for the decoder and its table |
| `Base64.EncoderIsRfc4648` | daemon/include/base64_util.h:5-26 | the encoder equals the block definition of section 4 of RFC 4648 for every byte string and every register of 12 bits or more |
| `Base64.DecoderIsRfc4648` | daemon/include/base64_util.h:28-46 | the decoder equals the block definition on the alphabet characters of any text |
| `Base64.OverflowIsHarmless` | daemon/include/base64_util.h:9-43 | the wrapping 32-bit register gives the same output as an unbounded one, at any length |
| `Base64.DecodeEncode` | daemon/include/base64_util.h:5-46 | decoding an encoding gives back every byte string |
| `Base64.EncodingShape` | daemon/include/base64_util.h:22-24 | length 4 * ceil(n/3), alphabet and padding characters only |
| `Decimal.ScanRendered` | cli/main.cpp:77-81 | a printed number is scanned back exactly, whatever non-digit follows |
| `Decimal.ScanWordOf` | daemon/main.cpp:128-129 | a word of at most 511 characters before white space is scanned back exactly |
| `Decimal.ScanSkipsSpace` | daemon/main.cpp:97-129 | white space of any kind before a number or a word is skipped |
| `Decimal.ScanPlus` | daemon/main.cpp:63-97 | a number may carry a plus sign |
| `Decimal.LongWordIsCut` | daemon/main.cpp:128-129 | a longer word is cut after 511 characters and its rest left for the next conversion |
| `Lines.LineLenExact` | daemon/main.cpp:58-59 | what one `fgets` takes is determined: at most the buffer, up to the first newline, short only there or at the end |
| `Lines.FirstChunk` | daemon/main.cpp:58-59 | the first chunk ends with the first newline, at 4095 characters or at the end, whichever comes first, and the others are those of the rest |
| `Lines.ChunksAppend` | daemon/main.cpp:58-101 | `fgets` chunks of texts that end a line are independent |
| `Lines.Reader.Fgets` | daemon/main.cpp:58-59 | one call returns the next chunk: through the newline, at most 4095 characters |
| `Protocol.ReadRequest` | daemon/main.cpp:60-167 | one line, and the prompt after it, give exactly the specified request |
| `Protocol.ReadPrompt` | daemon/main.cpp:99-107 | the prompt is the text of the lines before the first that begins with END, less one newline |
| `Lines.CStrStopsAtNul` | daemon/main.cpp:60-105 | of a line with a NUL only what stands before it is seen |
| `Framing.RequestsRoundTrip` | daemon/main.cpp:95-162 | a list of printed requests is recovered, with ids, counts, prompts and paths, if and only if no chunk of a prompt begins with END and every path is a word of at most 511 characters |
| `Framing.TakeLoad` | daemon/main.cpp:123-129 | the same for one load, whatever its arguments are |
| `Framing.PromptRecovered` | daemon/main.cpp:99-107 | the same for one prompt, and the lines after it are left for the next command |
| `Framing.EndPromptIsLost` | daemon/main.cpp:102-103 | a prompt with END at a line start, or after 4095 characters without a newline, is not recovered |
| `Framing.StreamRoundTrip` | cli/main.cpp:89-106 | the client decodes exactly the pieces sent, in order, stops at the terminator and ignores what follows |
| `Daemon.InferenceEndToEnd` | cli/main.cpp:81-106 | after any run, one infer command shows the client the pieces of exactly the tokens recorded after its prompt, and whether it succeeded |
| `Daemon.HandleClient` | daemon/main.cpp:58-168 | the command loop on the classes does what the dialogue does on values; which call a command leads to is the rows of `Commands` |
| `Commands.CreateCommand` | daemon/main.cpp:62-73 | the line answers OK if and only if the id was unknown; then exactly one new COLD entry appears, without tokens, stamped with the time |
| `Commands.KillCommand` | daemon/main.cpp:75-79 | the line answers OK if and only if the id was known; then its entry, node, context or file and bytes go, and nothing else |
| `Commands.SetHotLimitCommand` | daemon/main.cpp:81-86 | the line sets the HOT limit asked for, at least one, cuts the tier down below it and no further, leaves the budget alone and answers OK |
| `Commands.SetColdLimitCommand` | daemon/main.cpp:88-93 | the line sets the budget asked for, keeps exactly the swapped sessions that fit it with all younger ones, leaves the HOT tier alone and answers OK |
| `Commands.InferCommand` | daemon/main.cpp:95-121 | the line and its prompt answer with the pieces of the tokens that the world generates and DONE, recorded after the prompt, if the session can be activated and the prompt decoded, else with the error |
| `Commands.NotReadyCommands` | daemon/main.cpp:65-113 | without a loaded engine two commands are answered so and change nothing, the other three end the daemon |
| `Commands.HelloCommand` | daemon/main.cpp:164-167 | the greeting, and no change |
| `Commands.NpuLoadCommand` | daemon/main.cpp:123-133 | the NPU engine is asked with the arguments sent and its answer passed on; the sessions stay |
| `Commands.NpuInferCommand` | daemon/main.cpp:135-162 | the same for an NPU inference, with its pieces |
| `Commands.UnknownLine` | daemon/main.cpp:58-168 | a line that is no command is passed over |
| `Commands.LimitText` | daemon/main.cpp:82-90 | a limit sent as any integer arrives as `strtoul` takes it: negated modulo 2^64, the largest value when out of range |
| `Commands.NoNumber` | daemon/main.cpp:63-97 | where no digit is, ids, counts and limits are zero |
| `Daemon.Call` | daemon/main.cpp:71-118 | one call on the engine leads to the specified state and answer |
| `Daemon.RunCalls` | daemon/include/session_manager.h:10-66 | any sequence of calls on a fresh engine ends in the state of the run, and is undefined exactly if the run is |
| `Commands.MissingArguments` | daemon/main.cpp:96-129 | a missing number is zero and a missing path is empty |
| `Framing.PromptWithoutEnd` | daemon/main.cpp:99-107 | a prompt that is never closed takes the rest of the connection |
| `Framing.StreamCutOff` | cli/main.cpp:89-106 | an answer that breaks off without a terminator shows the pieces so far and ends as closed |
| `Framing.OtherLinePassed` | cli/main.cpp:89-106 | the client passes over any other line |
| `Framing.PrintsEverythingUnlessNul` | cli/main.cpp:96-97 | what is printed is the whole answer if and only if no piece contains NUL |
| `Framing.ReadAnswer` | cli/main.cpp:89-106 | the reply loop computes the specified pieces and terminator |
| `CancelProtocol.TableInEveryRun` | daemon/src/hal_service.cpp:65-84 | in every interleaving an entry is the flag of the youngest request of its session, not yet erased; without requests in flight the map is empty |
| `CancelProtocol.CancelReachesExactlyWhen` | daemon/src/hal_service.cpp:65-109 | a cancel reaches a request if and only if no registration or erase for its session came after the request's own registration |
| `CancelProtocol.SoleRequestIsReached` | daemon/src/hal_service.cpp:65-109 | a session with at most one request in flight at any time can always cancel it |
| `CancelProtocol.CancelStops` | daemon/src/llm_engine.cpp:96-119 | after a cancel that reached it, a request emits at most one more token, none unless it had passed the flag test, and takes at most five more steps |
| `CancelProtocol.UnfinishedCanStep` | daemon/src/hal_service.cpp:71-94 | a request is finished if and only if it has no step to take |
| `CancelProtocol.FinishesWhenScheduled` | daemon/src/hal_service.cpp:71-94 | a request that is scheduled for the steps it has left has finished, whatever happens in between |
| `CancelProtocol.OneTerminalCallback` | daemon/src/hal_service.cpp:86-93 | every request gets exactly one terminal callback, as its last step, and never more tokens than asked for |
| `CancelProtocol.FinishedRequest` | daemon/src/hal_service.cpp:71-94 | a finished request had onError if and only if it could not begin; one that began has emitted all the tokens asked for unless a cancel reached it, the text ended or a decode failed |
| `CancelProtocol.UndisturbedRequest` | daemon/src/llm_engine.cpp:96-119 | a request that began and met none of these emits exactly the tokens asked for and gets onComplete |
| `CancelProtocol.OverlapLosesTheFlag` | daemon/src/hal_service.cpp:81-84 | with two requests in flight the first erase removes the second one's flag |
| `CancelProtocol.Service.InferStream` | daemon/src/hal_service.cpp:65-69 | registration makes the new request the one a cancel reaches |
| `CancelProtocol.Service.EraseFlag` | daemon/src/hal_service.cpp:81-84 | the session's entry is gone, whoever's it was |
| `CancelProtocol.Service.CancelSession` | daemon/src/hal_service.cpp:101-109 | the flag stored for the session, if any, is raised, and nothing else |

## Left out

- llama.cpp and ggml: contexts, files and decoding are the small contracts of `Foreign.dfy`; tokenization is a parameter (the
  prompt arrives as tokens), sampling and the end-of-text test come from `Env`.
- When llama.cpp refuses to remove a part of a sequence: any such removal may be refused, with the cache unchanged, as its
  header allows; removing all of a sequence never is.
- What a failed `llama_decode` leaves in the cache beyond a prefix of its own tokens: `llama.h` promises the old state for
  negative results and nothing for positive ones.
- `SessionMeta.tokens` after a failed load: the buffer keeps the resized vector; tokens a failing load may have written into it
  are not modelled, since the next successful load overwrites all of them.
- The map's iteration order in the destructor is arbitrary in the model, as it is for an unordered map.
- `size_t` wrap-around of byte sums and list sizes, negative piece lengths, negative counts of HAL requests: sizes are
  unbounded natural numbers.
- `atoi` and `sscanf` on numbers outside `int`: undefined in C, unbounded in the model; printed requests carry C `int`s.
- The client's numeric arguments of session, limit and load commands are canonical decimals.
- `NpuLLMEngine` (a parameter that answers its requests), `isReady`, `getModelInfo`, sockets, `fdopen`, signals, binder registration, logging, directories.
- Swap files of an earlier process: the manager starts without files.
- Data races between HAL threads inside `SessionManager`, which is documented as single-client: the cancel protocol is modelled
  with abstract token steps, the manager sequentially.
