# Damon: a verified model

Damon is a daemon that runs coding agents. This project models its hardest parts in Dafny and proves
properties of them:

- **Missions** (`Conditions`, `ConditionMeaning`, `JsonText`, `Flow`, `Graph`, `Convergence`, `SettleMeaning`,
  `SettleOrder*`, `Scheduler*`, `Mission*`, `RunStatus`): a flow of input, agent, human and output nodes with
  conditional edges. `Convergence` gives one `settle` of the
  scheduler as a function on task maps and characterises its fixpoint. `Scheduler` is the run loop as a
  state machine over settling, outcomes, decisions and cancellation, and the other `Scheduler*` modules
  hold what is true of all its runs. `Mission` is the scheduler in the source's own form (rows changed in
  place, token map, store, broadcasts, run loop), each method proved to do what the state machine does,
  so that the results about runs hold of it.
- **The chat bridge** (`TurnLane`, `Permissions`, `Responses`, `ChatMeaning`, `Chunker`, `ChunkerGreedy`,
  `ChunkerTermination`, `TelegramHtml`, `TelegramMarkup`, `TelegramMeaning`): the turn queue of a conversation, the
  permission asks and who may answer them, the splitter that keeps code fences whole, and the Markdown to
  Telegram-HTML transducer.
- **The relay channel** (`Relay`, `RelayChannel`, `RelayHandshake`) with ideal encryption, hashing and key
  agreement, and the browser client's own arithmetic (`Bytes`, `Base64`, `Gcm`, `Sha256`, `FrameHeader`).
- **Two small machines with real-valued state** (`StreamReveal`, `RateLimit`).

Each machine is stated as functions. What these functions do is proved again in the program's plain terms, statuses,
keys, numbers and words spelt out, in the members called `...Means`, `...Is` and `...Effect`.

`dafny verify dfyconfig.toml` checks everything. Nothing of the original was executed.

## How to read it

A JSON value is a constructor with its text; objects carry the map from keys to values that conditions look
into, and the text of the objects that output nodes build is spelt out, member by member in the order of
insertion. Node ids and conversation ids are strings. The rows of a run are in the order in which the store lists
them, and nearly every result holds for each such order. Executions are counted by unbounded tokens and
attempts. `inflight` is the multiset of executions whose outcome has not been received; the environment may
deliver any of them next, in any order, at any time. In the chunker, text is a sequence of characters with
their UTF-8 widths. In the browser arithmetic, shifts and masks by constants are written as products,
quotients and remainders, `Bytes.Xor` is bit by bit, and 32-bit truncation is explicit where it can occur.
Floating-point quantities are reals.

Results that hold under a condition state it exactly:

- `settle` equals the evaluation of the nodes in topological order if and only if that evaluation fits
  the concurrency budget.
- The outcome of `settle` does not depend on the order of task rows or nodes. It depends on the order of edges
  exactly through the objects that output nodes build: two listings settle alike if and only if these gather
  their members in the same order, for which it is enough that each output node's incoming edges keep theirs.
  `EdgeOrderMatters` is a flow whose human node is asked under one listing and cut off under the other.
- An uncancelled run of an acyclic flow ends within as many rounds of settling and answering as its potential,
  plus two for each feedback, whatever the answers are.
- A permission ask can be removed by another ask's timer if and only if some waiter of its conversation has
  timed out already when the ask is requested.
- The chunker's loop ends if and only if it never meets a stuck remainder; `FencesFit` is a condition on the
  text that guarantees it, for the text and all its suffixes, and `LongFenceDiverges` a family of texts without
  end.
- The Telegram markup is well formed if and only if each fence that it opens can be read by itself. As long as
  an info string does not hold a quote directly followed by `>`, that is to say that it holds no quote, angle
  bracket or ampersand; with such a pair it closes the tag itself and carries markup of its own.
- When the client of the relay completes its handshake, both sides agree unless the public key that it was sent
  is its own.
- A typed `allow` selects the action whose label the choice shows if and only if the first offered allow is
  unscoped or all of them are scoped.
- Nonces do not repeat under a key if and only if at most 2^64 (Rust) or 2^53 + 1 (JavaScript) frames are
  sent under it. The order of frames needs one frame less, because the receiver's counter also wraps or sticks.

## Where code and documentation differ

- The comment at src/mission.rs:161-165 has `a=b!=c` parse as an inequality on the key `a=b`; the branch at line
  169 rejects it. The model follows the code: `IsClause` leaves out such values.
- docs/protocol-v2.md:526 says that an excluded branch "downstream cancels"; the code marks the whole branch
  excluded (src/mission.rs:1256-1296).
- The comment above `chunk_fence_safe` speaks of line boundaries; the line walk also visits the last, partial
  line of the window, and the re-opened fence makes the text longer, so that the loop need not end.
- The comment above `permission_choices` says that labels and reply words "can never disagree"; they can, see
  `AllowIsShownIff`.
- The comment at src/relay.rs:250-251 says that a relay cannot replay a captured proof. A client that is sent its
  own public key expects its own proof, see `ReflectionCompletes`.
- A permission waiter whose timer fired removes whatever ask is pending for its conversation by then, its own
  or a later one; see `ExpiryDeniesLaterAsk`.
- The comment above `tick` (src/stream-reveal.js:172-174) has the drain clear the hidden text exactly at the
  deadline; each frame divides by the time that is left after it, so that the drain is over earlier, see
  `DrainRunsAhead`.

## Model

| member | source | states |
|---|---|---|
| Conditions.ParsePrintClause | src/mission.rs:159-195 | Among clauses printed as one word, the clause parser reads back exactly those with an identifier key and, for `=`, no `!=` in the value |
| Conditions.ScanCondition | src/mission.rs:197-232 | The scanning parser (last or-part grown word by word, malformed clauses dropped, lengths compared) computes the grammar's parse for every string |
| Conditions.ParsePrint | src/mission.rs:197-232 | Every expression of proper clauses, printed with ` and ` and ` or `, parses to itself |
| Conditions.ParseIsStable | src/mission.rs:197-232 | Whenever any string is accepted, printing the result and parsing again gives the same expression |
| Conditions.AnyGroupIff | src/mission.rs:265-276 | Evaluation is the disjunctive normal form: some group with all clauses true |
| Conditions.OperatorsAreComplementary | src/mission.rs:234-262 | On a present key `=` and `!=` are complementary; on a missing or null key both are false |
| Conditions.EvaluateReadsItsKeys | src/mission.rs:265-276 | Evaluation depends only on the values of the keys that the condition names |
| ConditionMeaning.AcceptedIff | src/mission.rs:197-232 | The accepted strings, exactly: their words, cut at `or` and without `and`, are the printed clauses of the groups, none of them empty and no word left over |
| ConditionMeaning.EvaluateMeans | src/mission.rs:265-276 | A printed expression holds exactly if some group has for each clause a present, non-null value whose text equals the clause's value (`=`) or differs from it (`!=`) |
| ConditionMeaning.ClauseMeans | src/mission.rs:249-261 | `key=value` holds if and only if the key's value is there and its token (a string's content, anything else's JSON text) is `value`; `key!=value` if and only if it is there and its token is another |
| ConditionMeaning.DefaultIs | src/mission.rs:145-154 | With any blanks around it, a condition is a default one exactly if nothing or the word `default`, in any case, is left |
| ConditionMeaning.ContextIs | src/mission.rs:464-472 | An object output offers its members and, as `output`, itself; anything else offers itself as `value` and `output` |
| ConditionMeaning.EdgeMeans | src/mission.rs:477-500 | An edge with a printed condition fires on an output exactly if some group of clauses holds of what the output and the settings offer |
| Flow.ParseDefinition | src/mission.rs:333-456 | A definition is accepted exactly when it has nodes with distinct ids, edges between known nodes with valid conditions, an input, and roots that are inputs; an error names a fault that is there, in the order of the checks |
| Flow.AcceptedMeans | src/mission.rs:333-456 | Acceptance in plain terms: no id twice, known ends, readable conditions, some input, no edge into inputs and one into everything else, agents with a prompt and a backend that hold a word, read-only ones with tools |
| Flow.ActivatedEdges | src/mission.rs:477-500 | The two scans return, in order and without repetition, exactly the edges that fire |
| Flow.DefaultIsFallback | src/mission.rs:477-500 | A default edge fires exactly when no explicit sibling does |
| Flow.FiresIffEdgeFires | src/mission.rs:477-500 | Firing among a source's listed siblings and firing in the whole definition are the same |
| Flow.AnyActivatedTo | src/mission.rs:868-900 | Whether a succeeded source activates a target is whether some fired edge joins them |
| Graph.Downstream | src/mission.rs:1256-1270 | The exclude loop grows exactly the set of nodes reachable from the decided one, on any graph, cycles included |
| Graph.AcyclicIffNoCycle | src/mission.rs:405-456 | A flow has no self-sustaining set of nodes exactly when no path returns to its start |
| Graph.AcyclicIffTopological | src/mission.rs:405-456 | ... and exactly when its nodes can be listed sources first |
| Convergence.SettleCorrect | src/mission.rs:851-1098 | Settling terminates in a state where no queued task can still move, having changed queued tasks only and started exactly the agents it reports |
| SettleMeaning.SettleEffect | src/mission.rs:905-1097 | What settling does to a task, from its sources' final states alone: it stays, or is cut off because all of them are over and none delivers to it, or one does and it runs (agent, spawned), waits (human), succeeds with its value (input) or with the object of what its sources delivered (output); an agent stays behind only while 1 to 64 others run |
| Convergence.NoIdleSlot | src/mission.rs:1042-1097 | After settling, an agent that could run stays queued only if the running count equals the clamped budget |
| Convergence.NoDeadlock | src/mission.rs:858-1097 | After settling an acyclic flow, all tasks are terminal or some task runs or waits for a human |
| Convergence.SettleIsSolution | src/mission.rs:858-1097 | On an acyclic flow, settling computes the solution of the per-node verdict equations if and only if that solution fits the budget |
| Convergence.SettleIsEvaluation | src/mission.rs:858-1097 | The snapshot passes compute the one-visit evaluation in any topological order if and only if it fits the budget |
| JsonText.ObjectTellsOrder | src/mission.rs:991-1005 | Two objects are the same value, text included, exactly when they have the same members in the same order |
| JsonText.StringComesBack | src/mission.rs:991-1005 | A reader of strings by section 7 of RFC 8259 gets every string back from the text that is written for it |
| JsonText.RenderGrows | src/mission.rs:991-1005 | The text of an object grows by one member, its key quoted, a colon, its value, a comma before it unless it is the first, the brace last |
| SettleOrder.SettleIgnoresOrderIff | src/mission.rs:858-1097 | While the budget does not bind, two listings of one flow settle alike if and only if the output nodes that build their objects gather the same members in the same order |
| SettleOrder.SettleIgnoresRows | src/mission.rs:858-1097 | Neither the order of the task rows nor that of the nodes changes the result |
| SettleOrder.SettleIgnoresEdges | src/mission.rs:858-1097 | Edges may be listed in any order that leaves the sources of each output node in theirs |
| SettleOrderMatters.EdgeOrderMatters | src/mission.rs:991-1005 | An accepted acyclic flow and a listing of it with two edges exchanged, under one of which a human is asked and under the other cut off |
| Scheduler.StepAllowed | src/mission.rs:740-1335 | The status order: terminal tasks never reopen, succeeded and excluded never change, attempts grow by one exactly on a requeue, and a waiting task is requeued only by feedback |
| Scheduler.StepPotential | src/mission.rs:740-1335 | Every step that changes a task lowers the potential of remaining executions and phases, except accepted feedback, which raises it by at most one |
| SchedulerEffects.OutcomeEffect | src/mission.rs:1100-1177 | In every reachable state: a current outcome stores its output, or requeues the agent with the next attempt if and only if it was at most at attempt min(retries, 10), and fails it otherwise; any other outcome changes nothing |
| SchedulerEffects.DecisionEffect | src/mission.rs:1186-1304 | Approve and feedback take effect exactly on a waiting task, exclude exactly on one that waits, failed or is queued, and any other decision on none |
| SchedulerEffects.ApprovalFires | src/mission.rs:1208-1225 | On the output that an approval stores, an edge with condition `approved=true` fires and one with `approved=false` does not |
| SchedulerEffects.StopEffect | src/mission.rs:1306-1335 | A cancellation cuts off exactly the queued, running and waiting tasks, and no token that was issued is current after it |
| SchedulerEffects.AgentOutput | src/mission.rs:1100-1143 | In every reachable state a succeeded agent's output is the one that its own execution brought, received while it was current and applied |
| SchedulerEffects.HumanOutput | src/mission.rs:1207-1226 | A succeeded human was approved while it waited, and its output says so |
| SchedulerEffects.AgentTries | src/mission.rs:1144-1177 | In every reachable state a failed agent has been executed exactly min(retries, 10) + 1 times, and any agent as often as its attempt says |
| SchedulerTokens.RunKeepsTokens | src/mission.rs:790-799 | In every reachable state tokens are unique and growing, what is in flight was issued once and not applied, and every running task is covered until a cancellation |
| SchedulerTokens.ExactlyOneOutstanding | src/mission.rs:790-799 | A running task has exactly one outstanding outcome with its current token, and it belongs to its current attempt |
| SchedulerTokens.OutcomeAppliesIffCurrent | src/mission.rs:1100-1177 | An outcome changes a task if and only if it is the current execution of a running task and nothing was cancelled; then it changes that task alone |
| SchedulerSafety.StepExplained | src/mission.rs:851-1335 | Each change of a task's status has one of the named causes: its verdict, its own outcome, its own decision, an exclusion upstream, or cancellation |
| SchedulerSafety.RunKeepsBudget | src/mission.rs:1042-1050 | The running count never exceeds the clamped budget in any reachable state |
| SchedulerSafety.RunKeepsExclusion | src/mission.rs:1256-1296 | In every reachable state each successor of an excluded task is excluded or succeeded |
| SchedulerSafety.ExcludeIsReachability | src/mission.rs:1256-1296 | Excluding a waiting, failed or queued task excludes precisely what it reaches and has not succeeded, and keeps the tokens that existed |
| SchedulerSafety.FinishedIsTerminal | src/mission.rs:769-772 | In every reachable state a run that ended has terminal tasks only |
| SchedulerSafety.AgentSpawnedAtMost | src/mission.rs:1144-1177 | Over any run an agent node is spawned at most min(retries, 10) + 1 times |
| SchedulerCausality.RunIsCausal | src/mission.rs:861-966 | In every reachable state each started task that is no input has a succeeded source whose edge fired on its stored output |
| SchedulerCausality.StartedIsLinkedToInput | src/mission.rs:438-454 | In an accepted flow every started task ends a chain of succeeded tasks with fired edges that begins at an input node |
| SchedulerCausality.BelowCycleNeverStarts | src/mission.rs:405-456 | No node on or downstream of a cycle ever starts |
| SchedulerCausality.CycleBlocksFinish | src/mission.rs:769-772 | A flow with a cycle ends without cancellation only if everything on and below the cycle was excluded |
| SchedulerLiveness.RunIsBounded | src/mission.rs:740-817 | In any run of n tasks the number of status-changing steps is at most n(2R + 3) plus twice the feedback decisions, R being min(retries, 10) |
| SchedulerLiveness.ExecutionsConserved | src/mission.rs:787-800 | Every execution spawned is either outstanding or was received, once |
| SchedulerLiveness.SettledAwaits | src/mission.rs:774-786 | An unfinished, settled run of an acyclic flow waits for something that the environment can deliver and that will change a task |
| SchedulerLiveness.CanFinish | src/mission.rs:740-817 | From every point of an uncancelled run of an acyclic flow, outcomes and decisions alone can lead to the end |
| SchedulerLiveness.AnsweredRunEnds | src/mission.rs:740-817 | From every such point, every sequence of rounds of settling and then any awaited outcome or decision reaches the end within as many rounds as the potential, plus two for each feedback |
| SchedulerLiveness.AnsweredRunEndsFromStart | src/mission.rs:740-817 | A fresh run of n nodes needs at most n(2R + 3) rounds, and two more for each feedback |
| MissionEnds.AnsweredLoopEnds | src/mission.rs:740-817 | The run loop itself ends, with all tasks terminal, within so many turns of which each brings it something that it waits for |
| Mission.MissionScheduler.Transition | src/mission.rs:1353-1366 | One row changes, the store has it before it is broadcast, and memory and store agree on status and attempt for all rows |
| Mission.MissionScheduler.SettlePass | src/mission.rs:862-1097 | One sweep over the rows, judged against a snapshot with a live running count, is one pass of the specification |
| Mission.MissionScheduler.SettleAll | src/mission.rs:851-1098 | The in-place loop reaches the specification's fixpoint, whose effect on each task is `SettleEffect`, and reports its spawns in order |
| Mission.MissionScheduler.GatherUpstream | src/mission.rs:991-1005 | The loop over the incoming edges builds the object of the succeeded sources' outputs, first-named first |
| Mission.MissionScheduler.SpawnAgents | src/mission.rs:787-799 | Each ready agent gets the next token, and its execution is in flight with it |
| Mission.MissionScheduler.ApplyCompletion | src/mission.rs:1100-1177 | Token, cancellation and status checks, retry and failure, on the rows, as the state machine has them (`OutcomeEffect` says what that is), with one broadcast exactly when a row changed |
| Mission.MissionScheduler.ApplyRespond | src/mission.rs:1186-1304 | Approve, feedback and exclude on the rows, as the state machine has them, with one broadcast, of the decided row, exactly when a row changed; any other decision changes nothing (`DecisionEffect` spells out the cases) |
| Mission.MissionScheduler.Exclude | src/mission.rs:1256-1296 | The closure loop and the sweep exclude exactly the reachable rows and give a token only to those without one |
| Mission.MissionScheduler.ExcludeDecided | src/mission.rs:1248-1303 | An exclusion always changes the decided row, and broadcasts that row alone, as excluded in the store |
| Mission.MissionScheduler.CancelAll | src/mission.rs:1306-1335 | All tokens are replaced by a new one, and exactly the unfinished rows become cancelled |
| Mission.MissionScheduler.RunTurns | src/mission.rs:740-817 | For every script of arrivals the run loop performs the events that its order of checks calls for and stays on a run of the state machine |
| RunStatus.RecordedInTime | src/mission.rs:1340-1351 | The cancellation flag recorded at the end tells exactly whether a cancellation was requested before the run ended |
| RunStatus.ReportIsFaithful | src/mission.rs:1340-1398 | The reported status is `running` exactly until the run ends, then `cancelled` exactly if a cancellation was requested before that, and else `succeeded` exactly when nothing failed or was excluded |
| RunStatus.StatusMeans | src/mission.rs:1374-1398 | For any tasks and flags: an interruption outranks a recorded cancellation, that outranks the end, and an ended run at rest is failed exactly if something failed or was excluded |
| TurnLane.RunKeeps | src/channel.rs:733-876 | All the lane invariants below, over every interleaving of messages, turn ends and cancel commands |
| TurnLane.ReachableLane | src/channel.rs:733-763 | At most one live turn for a conversation, at most three waiting, waiting only behind a live turn; a prompt starts at once exactly if nothing is live and is refused exactly if three wait |
| TurnLane.ReachableOrder | src/channel.rs:856-876 | Prompts of a conversation start in the order of arrival |
| TurnLane.ReachableOnce | src/channel.rs:733-931 | An accepted prompt is exactly one of started, waiting and dropped by cancel, and once |
| TurnLane.TurnsDrain | src/channel.rs:852-876 | As turns end one by one, all that waited is started in order and the lane disappears |
| ChatMeaning.MessageMeans | src/channel.rs:746-763 | In every reachable state a message starts a turn exactly if its conversation runs none, is put last of at most three if it runs one, and is otherwise refused; other conversations do not notice |
| ChatMeaning.TurnEndMeans | src/channel.rs:856-876 | The end of a turn starts the prompt that waited longest, or leaves the conversation at rest |
| ChatMeaning.CancelMeans | src/channel.rs:917-931 | A cancel drops all that waits, in order, and leaves the running turn |
| TurnLane.TurnLanes.Accept | src/channel.rs:746-763 | The map operation is the state machine's arrival, with the position reported |
| TurnLane.TurnLanes.TurnFinished | src/channel.rs:856-876 | Hand-off or removal of the lane, as the state machine's turn end |
| TurnLane.TurnLanes.DropQueue | src/channel.rs:917-931 | Drops the waiting prompts, counts them, and leaves the turn live |
| Responses.WordResponseIsOffered | src/channel.rs:2464-2489 | A word's response names an offered action of its own behaviour whenever there is one, and `always` a scoped one whenever there is one |
| Responses.ShownIsSelected | src/channel.rs:2281-2312 | `always` and `deny` select the action that their choice shows |
| Responses.AllowIsShownIff | src/channel.rs:2281-2312 | `allow` selects what its choice shows unless the first offered allow is scoped and another is not |
| Responses.DeniesIffDeny | src/channel.rs:2423-2457 | Whatever the card, only the word `deny` denies |
| Responses.LettersReachOptions | src/channel.rs:2423-2457 | On a single question each of the first 26 options is reached by its letter; any other character stands for itself |
| ChatMeaning.WordsMean | src/channel.rs:2464-2489 | `deny` names the first offered deny, `allow` the first allow, `always` the first scoped allow or else what `allow` names; each names nothing only if there is none |
| ChatMeaning.OtherRepliesMean | src/channel.rs:2423-2457 | `skip` answers nothing, a longer text answers a single question word for word, and several questions or none make it an `allow` |
| Permissions.StepKeeps | src/channel.rs:595-722 | A pending ask is its conversation's and unanswered; a response is a denial or what the consumed answer maps to; no ask has two |
| Permissions.OneResponse | src/channel.rs:1888-1924 | Over any interleaving each ask gets at most one response |
| Permissions.AnswerWasGranted | src/channel.rs:610-710 | Any answer that a waiter receives was the recorded requester's message, taken while that ask was the conversation's pending one |
| Permissions.AllowWasGranted | src/channel.rs:1888-1924 | A tool is allowed only on such a message, and the response is what that message maps to |
| Permissions.WaiterResponds | src/channel.rs:1893-1924 | No waiter is stuck: at most two more of its own steps give its ask its one response, the consumed answer's if there is one |
| Permissions.StolenIff | src/channel.rs:1900-1912 | Over all continuations, an ask can be removed by another ask's timer if and only if some waiter of its conversation has timed out when it is requested |
| Permissions.RemovedByOwnCause | src/channel.rs:1858-1959 | Otherwise, whatever happens, it leaves the map only by its consumed reply, its own timer, a newer ask, its resolution or the end of the turn |
| ChatMeaning.ReplyMeans | src/channel.rs:595-722 | A message is consumed exactly if the pending ask of its conversation takes it, which is said for words, `!skip`, free text and commands; then that ask has its answer and is pending no more, and otherwise nothing changes |
| ChatMeaning.LaneChanges | src/channel.rs:1858-1959 | A new ask replaces its conversation's pending one; a resolution or the end of a turn leaves none; other conversations keep theirs |
| Permissions.ExpiryDeniesLaterAsk | src/channel.rs:1900-1912 | A concrete run of the other kind: one ask's timeout denies a later ask of the conversation that nobody answered |
| Permissions.AskLanes.Reply | src/channel.rs:610-710 | Authorization and removal under one lock act on the map as the state machine's reply |
| Permissions.AskLanes.GiveUp | src/channel.rs:1903-1912 | A timed-out waiter removes its conversation's lane, whichever ask it holds, and denies |
| Chunker.ChunkFenceSafe | src/channel.rs:2536-2580 | Where the chunker ends, its two loops return the chunks of the specification |
| Chunker.WalkMeaning | src/channel.rs:2552-2568 | A cut leaves an even number of fence lines behind it; no cut means that the window begins with a fence line that nothing closes |
| ChunkerGreedy.LastCut | src/channel.rs:2552-2568 | The cut is the last line end of the window, its own end included, with an even number of fence lines before it; without a cut there is no such line end |
| ChunkerGreedy.HeadIsLongest | src/channel.rs:2541-2579 | What is cut off is the longest balanced run of whole lines that fits, or the whole window if none does, and a fence that it leaves open is re-opened with the same info string |
| ChunkerGreedy.ChunksAreGreedy | src/channel.rs:2536-2580 | So is every chunk of a text: no chunk that was cut could have taken more whole lines and stayed balanced |
| ChunkerGreedy.FenceLineIs | src/channel.rs:2526-2529 | A fence line is spaces, three backticks and its trimmed info string |
| Chunker.Shrinks | src/channel.rs:2544-2579 | Every iteration consumes bytes unless it is stuck on a lone fence line |
| Chunker.ChunksFit | src/channel.rs:2536-2580 | Every chunk is at most `max` bytes |
| Chunker.ChunksKeepFences | src/channel.rs:2536-2580 | Every chunk but the last has an even fence count or is followed by one that starts with the re-opened fence |
| Chunker.ReassembleChunks | src/channel.rs:2774-2784 | Stripping the injected markers gives back the exact text |
| ChunkerTermination.TerminatesIff | src/channel.rs:2536-2580 | The loop ends if and only if no iteration of it meets a stuck remainder, and then the specification has its chunks |
| ChunkerTermination.FencesFitTerminates | src/channel.rs:2570-2579 | If every fence line that could come about by a cut leaves four bytes of a chunk free, and a chunk has at least four, the loop ends |
| ChunkerTermination.SuffixesTerminate | src/channel.rs:2570-2579 | ... and so it does for every suffix of the text |
| ChunkerTermination.LongFenceDiverges | src/channel.rs:2570-2579 | One unbroken fence line longer than a chunk is never finished |
| TelegramHtml.EscapeIsOnePass | src/channel.rs:2583-2587 | Three successive replacements escape each special character once |
| TelegramHtml.ToTelegramHtml | src/channel.rs:2656-2681 | The buffer loop over lines computes the transducer's output for every text |
| TelegramHtml.TelegramInline | src/channel.rs:2593-2650 | The span loop appends a line's spans to the buffer, and its recursion through bold terminates |
| TelegramMarkup.ScanEscaped | src/channel.rs:2583-2587 | A reader of the markup gets escaped text back exactly, inside any tags |
| TelegramMarkup.ScanSpans | src/channel.rs:2593-2650 | The spans of a line are well nested, `code` holds no tag, open tags are left as they were, and the text shown is the line without its markers |
| TelegramMarkup.ScanConcat | src/channel.rs:2656-2681 | What ends with a tag is read on its own, whatever follows it |
| TelegramMeaning.CodeIsShown | src/channel.rs:2593-2650 | Where a backtick is the first marker of a line and another follows, what lies between is shown as code and read no further |
| TelegramMeaning.BoldIsShown | src/channel.rs:2593-2650 | Where a pair of stars is the first marker and another pair follows, what lies between is shown in bold and read again |
| TelegramMeaning.EveryLineIsCovered | src/channel.rs:2593-2650 | Every line is plain, begins with one of the two kinds of span, or has a first marker that nothing closes |
| TelegramMeaning.UnclosedBoldStays | src/channel.rs:2641-2646 | A pair of stars that nothing closes stays, and so does all that follows it |
| TelegramMeaning.UnclosedCodeStays | src/channel.rs:2623-2628 | So do a backtick that nothing closes and what follows it |
| TelegramMeaning.LineIsShown | src/channel.rs:2656-2681 | Line by line: fence lines open and close the block and carry the language, the lines within are escaped only, the others are formatted |
| TelegramMarkup.HtmlIsWellFormedIff | src/channel.rs:2656-2681 | For every text the output is well nested over `b`, `code` and `pre` with every special escaped exactly if each opened fence reads by itself, and then shows the text's body, markers and bullets aside; where info strings do not close their own tag, exactly if they are clean |
| Relay.NoncesDifferIff | src/relay.rs:214-222 | Nonces under one key are distinct if and only if at most 2^64 (Rust) or 2^53 + 1 (JavaScript) frames are sent |
| Relay.E2e.Encrypt | src/relay.rs:206-228 | A number is used up only when a frame is made, and is both the frame's number and its nonce |
| Relay.E2e.Decrypt | src/relay.rs:230-247 | Only the expected number opens, under the frame's own nonce; the counter moves exactly when a frame opens, also if its bytes are then no text |
| Relay.DecryptMeans | src/relay.rs:230-247 | A frame is read if and only if it has the expected number, was sealed under the nonce that it shows with the key of the peer's direction, and holds text or is read by JavaScript |
| RelayChannel.AcceptsIff | src/relay.rs:230-247 | A delivered frame is accepted if and only if it is the peer's next one; any other, reflected ones included, closes the end |
| RelayChannel.AcceptedIsPrefix | src/relay.rs:230-247 | Over any dropping, duplicating, reordering or reflecting of whole frames, for any pair of runtimes, what a side accepted is a prefix of what the other sent |
| RelayChannel.NonceUsedOnce | src/relay.rs:206-228 | No key and nonce pair seals two frames, across both directions |
| RelayChannel.CatchesUp | src/relay-client.js:774-796 | An end that is still open can always be brought to have accepted everything sent |
| RelayHandshake.CompletionAgrees | src/relay.rs:64-160 | When the daemon completes, both sides hold the same token, each other's public keys and the same proof variant; so they do when the client completes, unless the key it was sent is its own; when both complete, their keys are mirrored |
| RelayHandshake.ReflectionCompletes | src/relay.rs:122-183 | A client that is sent its own key and its own proof completes, whatever token the daemon holds and though it took no part |
| RelayHandshake.DaemonProvesLast | src/relay.rs:58-63 | A proof of the daemon's is sent only after the client has proved that it knows the token |
| RelayHandshake.FaithfulRun | src/relay-client.js:735-771 | Delivered faithfully, the handshake completes on both sides if and only if the tokens agree, with the stretched proof |
| RelayHandshake.MarkerDecides | src/relay.rs:64-120 | Whatever marker the relay lets the daemon see decides the proof that both sides use; with equal tokens both still complete, and with different ones both fail |
| Bytes.XorTwice | src/relay-client.js:402-452 | Adding the same key stream twice gives the data back |
| Base64.RoundTrip | src/relay-client.js:65-92 | Decoding undoes encoding for byte strings of every length (section 4 of RFC 4648) |
| Base64.EncodedMeans | src/relay-client.js:65-77 | Each group of three bytes is written with the digits of table 1 of RFC 4648 at its four sextets, and padded where it is short |
| Base64.Encode | src/relay-client.js:65-77 | The shifting loop writes the four digits of each 24-bit group, with padding |
| Base64.Decode | src/relay-client.js:79-92 | The bit buffer yields the bytes of the groups of the cleaned input, whatever was dropped from it |
| FrameHeader.SeqBytes | src/relay-client.js:598-605 | The loop writes the number's eight bytes, big-endian |
| FrameHeader.ReadSeqBE | src/relay-client.js:607-611 | The loop reads the big-endian number of the first eight bytes |
| FrameHeader.HeaderComesBack | src/relay.rs:222-234 | The number at the head of a frame is read as it was written |
| Gcm.GfMul | src/relay-client.js:380-388 | The loop over bits is Algorithm 1 of section 6.3 of NIST SP 800-38D |
| Gcm.MulDistributes | src/relay-client.js:380-388 | Block multiplication distributes over addition |
| Gcm.PowersMultiply | src/relay-client.js:380-388 | The block 1 0...0 is the one of the field, and each further power of x shifts and folds the other factor once, which with distribution fixes every product |
| Gcm.GhashIsPolynomial | src/relay-client.js:434-449 | The running hash is the value at the hash key of the polynomial whose coefficients are the blocks |
| Gcm.Inc32Counts | src/relay-client.js:410-421 | Writing a count into the last four bytes is the standard's 32-bit increment, wrap-around included |
| Gcm.GctrTwice | src/relay-client.js:422-433 | Counter mode undoes itself for every length, partial last block included |
| Gcm.Core | src/relay-client.js:402-452 | The shared core gives the counter-mode output and the tag of the ciphertext in both directions |
| Gcm.OpensIffSealed | src/relay-client.js:454-468 | Opening gives a text if and only if what is opened is that text sealed under the same key and nonce |
| Gcm.SealMeans | src/relay-client.js:402-457 | Byte by byte: the text under the counter blocks from 2 on, then that hash under counter block 1 |
| Gcm.AesGcmSeal | src/relay-client.js:454-457 | Sealing is the authenticated encryption of section 7.1, or fails on a nonce that is not 96 bits long |
| Gcm.AesGcmOpen | src/relay-client.js:459-468 | Opening is section 7.2, with the byte-wise comparison of tags |
| Sha256.FewestZeros | src/relay-client.js:164-177 | The padding uses the fewest zeros that complete a block (section 5.1.1 of FIPS 180-4) |
| Sha256.PaddedInjective | src/relay-client.js:164-177 | Different messages are padded differently |
| Sha256.PaddedMeans | src/relay-client.js:164-177 | The padded message is as few whole blocks as can be: the message, a one bit, zeros, and the number of bits in the last eight bytes, big-endian |
| Sha256.Compute | src/relay-client.js:164-190 | The client's buffer and block loop compute the hash of the padded message |
| Sha256.PaddedDigest | src/relay-client.js:479-498 | A 32-byte message is padded to one block, always in the same way |
| Sha256.ProofStretched | src/relay-client.js:479-498 | One compression a round on a block padded once gives 2^16 further general hashes of the labelled seed, which is the daemon's proof |
| StreamReveal.RunKeeps | src/stream-reveal.js:97-198 | Over any order of updates, frames and timers: visible is the text's length less the rounded holdback, the holdback stays within 0 and 600, and the deadline within 240 ms of the last change |
| StreamReveal.VisibleFallsOnlyWithText | src/stream-reveal.js:97-198 | A step lowers the visible count only when the text itself becomes shorter than it |
| StreamReveal.RevealedInTime | src/stream-reveal.js:175-183 | After any run, the first frame 240 ms or more after the last change shows everything |
| StreamReveal.HiddenTextHasAFrame | src/stream-reveal.js:154-173 | In every state of a run that nobody stops from outside, a frame and the watchdog are booked whenever text is hidden; an update books them even after a stop |
| StreamReveal.ContinuationMeans | src/stream-reveal.js:97-150 | Text that goes on from what was there is held back in full, nothing more is shown at once, and the drain has 80 to 240 ms |
| StreamReveal.PacingMeans | src/stream-reveal.js:126-149 | Cadence and rate move half of the way to each measured arrival, and the drain lasts a tenth longer than the cadence or as long as the rate needs, within those bounds |
| StreamReveal.AtOnce | src/stream-reveal.js:97-124 | Everything is shown at once without animation, on a historical cursor, on a replacement, and beyond 600 hidden characters |
| StreamReveal.ReplacementMeans | src/stream-reveal.js:211-217 | A text replaces another exactly if they share no head of 24 characters or of half of the shorter one |
| StreamReveal.DrainRunsAhead | src/stream-reveal.js:172-193 | The drain is empty at the first frame past the middle between the last frame and the deadline, not at the deadline, and never behind an even drain |
| StreamReveal.FrameMeans | src/stream-reveal.js:175-193 | A frame leaves of what is hidden the share of the time left that has not gone by, and shows the rest |
| StreamReveal.StreamReveal.Update | src/stream-reveal.js:97-150 | The method's early exits and field updates are the specification's step |
| StreamReveal.StreamReveal.Tick | src/stream-reveal.js:175-193 | The frame callback is the specification's drain |
| StreamReveal.Replaces | src/stream-reveal.js:211-217 | The scanning loop decides by the longest common head |
| RateLimit.LimitPerAddress | src/api.rs:832-871 | For any sequence of requests from any addresses, eviction included, at most 20 + T requests of one address are let in within any window of T seconds |
| RateLimit.WindowBound | src/api.rs:861-871 | The same for one bucket, after any history |
| RateLimit.BurstIsAllowed | src/api.rs:861-871 | A bucket of n tokens allows n requests at once |
| RateLimit.SlowCallerIsAllowed | src/api.rs:861-871 | A caller that waits a second between requests is never refused |
| RateLimit.TokensConserved | src/api.rs:861-871 | While a bucket cannot have filled up, its tokens and one for each second are exactly the allowed requests and what is left, and less than one is left when a request is refused |
| RateLimit.EvictionIsInvisible | src/api.rs:843-849 | Evicting buckets idle for ten minutes changes no decision, over any sequence of requests |
| RateLimit.ServeMeans | src/api.rs:843-849 | A request leaves its own bucket and those of the others used within the last ten minutes |
| RateLimit.RateLimiter.Admit | src/api.rs:843-852 | The map operation decides as the specification does, eviction included |

## Left out

- The prompts, requests, inbox items, timestamps, feedback texts and error messages of the scheduler: they do not influence statuses.
- The rest of a stored row: the store holds status and attempt, because on approve the stored output differs from the one in memory.
- Errors of the store: `persist` always succeeds.
- Late registration and `load_tasks` from an interrupted run: a run starts with all tasks queued, as `mission.run` creates it.
- Mission.MissionScheduler.RunTurns: does not model waiting as such; a script says what arrives at each turn, and a script that ends leaves the loop waiting.
- Scheduler tokens and attempts do not wrap; the source uses 64-bit and 32-bit integers.
- TurnLane.RunKeeps: the content of a turn (session creation, streaming, retries on a fresh session) is not modelled; a turn ends at some time.
- Permissions.AskLanes.Reply: lower-casing is Unicode's, so the lower-case form of a message is an arbitrary string; the router's earlier look at the lane is an arbitrary flag, which covers every stale value.
- Permissions of watched sessions, which have no waiter, and `always` being remembered by the daemon.
- Responses: whether an action is scoped is a field, not a search in its id and label.
- TelegramMarkup.HtmlIsWellFormedIff: the text shown is compared up to span markers and the shape of bullets.
- Chunker.ChunkFenceSafe: is specified only where the loop ends; `TerminatesIff` says where that is.
- ChunkerTermination.FencesFitTerminates: the condition is sufficient; it looks at every place of the text and so turns down some texts on which the loop ends.
- RelayChannel.AcceptedIsPrefix: plaintexts are texts that UTF-8 can carry; the network moves whole frames; frames whose header was changed on the way are not considered, nor are the JSON envelopes and the session table of the tunnel.
- RelayHandshake.CompletionAgrees: hashes are injective and key agreement is symbolic; clients that do not offer the stretched proof are covered only as far as a first message without the marker goes.
- Gcm and Sha256: the block cipher, its key schedule (which insists on 32 bytes) and the compression function are parameters; X25519 is not modelled.
- Sha256.Compute: messages from 2^37 - 72 bytes on, whose block count does not fit 32 bits, are excluded; no such array can be allocated.
- FrameHeader.SeqBytes: numbers above 2^53, which the client's counter never reaches, are excluded.
- StreamReveal.StreamReveal.Update: subscribers and their notification are not modelled, and the cached highlighter and the span planner are left out as easy.
- RateLimit.LimitPerAddress: reals instead of doubles, and loopback addresses, which are not limited, are left out.
- Transports, sessions, backends, configuration, HTML pages, service files and slash commands other than `cancel`.
