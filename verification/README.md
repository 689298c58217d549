# A Dafny model of the fx runtime's hard parts

This project models six parts of the fx repository and proves what they promise for every input, every
run or every history of calls:

* the JSON validator of the standard library (`Json*.dfy`),
* the guest sessions, capabilities and bump arenas of the host runtime (`Arena*.dfy`, `Guest*.dfy`),
* the bounded channel, the polling select, the task nursery and the tasks that connect them
  (`Channel*.dfy`, `Select.dfy`, `Nursery*.dfy`, `SpawnSend.dfy`),
* the lexer of the compiler source (`Lexer*.dfy`),
* the hex and base64 codecs (`Encoding.dfy`),
* the 32-bit decimal accumulator that the two scanners share (`Numeric.dfy`).

`dafny verify dfyconfig.toml` checks everything.

## How to read it

**JSON.** `JsonGrammar` is the grammar of RFC 8259, sections 2 to 7, as concrete syntax trees with their
printed text, their nesting height and (in `JsonProofs`) their preorder trace. `JsonParser` has the
validator's functions on the threaded parser state, `JsonValidate` the same as the source's loops, and each
loop is proved to compute its function. The main results are in `JsonTheorems`.

**Guests.** `Session` and `Cap` are objects with the fields of the C structs. `GuestRuntime.Runtime` carries,
as ghost state, the set of all sessions and of all capabilities ever made; its `Valid()` is the forest
invariant, which every entry point keeps. `Session.line` is the ghost set of a session and all those it was
begun under: `g in h.line` reads "h is in the subtree of g". `fx_guest_end` terminates because the live
sessions below a child are properly fewer than those below its parent (the `decreases` of `End`); this needs
every listed child to be live and to point back.

**Concurrency.** One critical section is one atomic step; a wait puts a thread to sleep, a signal wakes at
least one sleeper if there is one, and sleepers may wake spuriously (POSIX.1-2017, `pthread_cond_wait`). The
classes `FxChan` and `FxNursery` hold the data under the lock, and each method is one pass through it, proved
against a function on a queue or a slot view. The state machines in `ChannelProtocol`, `NurseryProtocol` and
`SpawnSend` use those functions, and their results hold in every state of every run. `Select` runs the
source's polling loop against any schedule of passes by other threads.

**Lexer.** `Lexer.Scan` is one turn of the main loop on the front of a text, and `Lexer.Lex` the token stream;
`LexerLoop` is the source's loops, proved to compute them. `LexerMunch` says, for each form of token and trivia
and on any text, that the turn takes the longest match. A text is `Closed` if it ends outside every string,
char literal, comment and attribute.

**Codecs.** A `Word` is the bit pattern of an i32, so shifts, masks and signed comparisons are those of the
source on any vector, not only on bytes.

## Where the code does less than one might expect

* Lexing is not compositional without exception: a line comment put right after a `/` operator swallows it,
  because the two slashes meet (`compiler-source/lib/sh_lexer.fx:301-314`). `LexerTheorems.SlashIsSwallowed`
  is an instance, and `LexerTheorems.Composes` says that this is the only exception.
* The comment at `compiler-source/lib/sh_lexer.fx:299` speaks of `///` comments; the code skips every `//`.
* `fx_select_recv2` counts rounds in 32 bits. With a timeout of 2^32 - 1 the counter wraps and it never
  returns TIMEOUT (`host/concur/fx_select.c:19-55`): `Select.SelectNothing` shows it polling for good, and
  `Select.SelectRecv2` bounds the rounds for all others.
* The value that the JSON validator stores for a number is its signed integer part modulo 2^32, so it is exact
  from -2^31 to 2^31 - 1; a number in the lexer up to 2^31 - 1.

## Model

| member | source | states |
|---|---|---|
| Numeric.AccumulateIsDecimal | std/json_validate.fx:191-207 | accumulating decimal digits with a wrap at every step gives the number they denote, wrapped once; it is exact if and only if the number is at most 2^31 - 1 |
| Numeric.DigitTable | std/json_validate.fx:34-42 | the digits are the characters of 0123456789, each standing for its position |
| Numeric.DecimalOfShown | std/json_validate.fx:199-206 | the decimal numeral of a number denotes that number |
| JsonGrammar.ClassTable | std/json_validate.fx:18-59 | the white space, hex digit, escape and plain characters of the grammar, spelled out |
| JsonGrammar.HeightCountsLevels | std/json_validate.fx:294-295 | a value's height is 0 without values inside it, and else one more than the highest of those |
| JsonParser.SkipWs | std/json_validate.fx:61-70 | all four whitespace characters are skipped, as far as they go, and nothing else |
| JsonParser.ParseString | std/json_validate.fx:94-176 | stays in bounds and moves on past the opening quote |
| JsonParser.ParseNumber | std/json_validate.fx:179-281 | reads stay in bounds and a success moves on |
| JsonParser.ParseArray | std/json_validate.fx:283-315 | terminates on every input; stays in bounds, strictly advances, adds no more nodes than bytes consumed |
| JsonParser.ParseElements | std/json_validate.fx:293-314 | the same for each turn of the array loop |
| JsonParser.ParseObject | std/json_validate.fx:317-367 | terminates on every input; stays in bounds, strictly advances, adds no more nodes than bytes consumed |
| JsonParser.ParseKey | std/json_validate.fx:328-346 | the same for a key and its colon |
| JsonParser.ParseMembers | std/json_validate.fx:327-366 | the same for each turn of the object loop |
| JsonParser.ParseValue | std/json_validate.fx:369-409 | terminates on every input, mutual recursion included; stays in bounds, strictly advances, adds no more nodes than bytes consumed; a failed state is left alone |
| JsonProofs.ValueComplete | std/json_validate.fx:369-409 | any printed value within the depth limit is parsed to exactly its end, and pushes its preorder trace |
| JsonProofs.ElementsComplete | std/json_validate.fx:283-315 | the same for the elements of an array, up to the closing bracket |
| JsonProofs.MembersComplete | std/json_validate.fx:317-367 | the same for the members of an object, keys being kind-4 nodes before their values |
| JsonProofs.NumberComplete | std/json_validate.fx:179-281 | a printed number that is not followed by more of it is parsed whole |
| JsonProofs.ScanStringComplete | std/json_validate.fx:94-176 | a printed string is scanned to exactly behind its closing quote |
| JsonProofs.ScanStringSound | std/json_validate.fx:94-176 | what is scanned as a string is one by the grammar, escapes and control characters included |
| JsonProofs.ValueSound | std/json_validate.fx:369-409 | whatever is accepted as a value is the text of a tree within the depth limit, and the new nodes are that tree's trace |
| JsonProofs.ElementsSound | std/json_validate.fx:283-315 | the same for array elements |
| JsonProofs.MembersSound | std/json_validate.fx:317-367 | the same for object members |
| JsonTheorems.ValidateIffJsonText | std/json_validate.fx:411-424 | validate accepts a text if and only if it derives from the JSON-text grammar by a value of height at most 400 |
| JsonTheorems.ParseUndoesPrint | std/json_validate.fx:369-424 | for every tree of height at most 400, printed with any legal whitespace, the parser ends where the value ends and its nodes are the tree's preorder trace |
| JsonTheorems.AcceptedIffShallow | std/json_validate.fx:369-375 | a printed tree is accepted exactly when it nests at most 400 deep |
| JsonTheorems.TooDeep | std/json_validate.fx:369-375 | a value nested beyond the limit is refused from any state and depth |
| JsonTheorems.TraceDeterminedByText | std/json_validate.fx:369-424 | two trees with the same text have the same node vector |
| JsonTheorems.NumberNodeValue | std/json_validate.fx:179-281 | on success the consumed bytes are the longest match of the number rule, and the node carries the signed integer part wrapped to 32 bits, whatever the fraction and exponent; this is exact if and only if it lies in -2^31 to 2^31 - 1 |
| JsonTheorems.NodesOfScalars | std/json_validate.fx:369-409 | the nodes of `null`, `true` and `false` |
| JsonTheorems.NodesOfEmpties | std/json_validate.fx:283-325 | the nodes of an empty string, array and object |
| JsonTheorems.NodesOfNested | std/json_validate.fx:317-366 | in a nested text, an object's node comes before its key's and that before its value's |
| JsonValidate.SkipWs | std/json_validate.fx:61-70 | the loop computes the whitespace skip |
| JsonValidate.ParseLit | std/json_validate.fx:77-91 | the loop compares the literal byte by byte |
| JsonValidate.ParseString | std/json_validate.fx:94-176 | the loop, its escapes and its hex digits, computes the string scan |
| JsonValidate.AccumulateDigits | std/json_validate.fx:199-206 | the digit loop reads the whole run and accumulates it in i32 |
| JsonValidate.ParseTail | std/json_validate.fx:208-277 | the fraction and exponent loops compute the rest of the number rule |
| JsonValidate.ParseNumber | std/json_validate.fx:179-281 | the digit loops compute the number parse, with the i32 accumulator |
| JsonValidate.ParseArray | std/json_validate.fx:283-315 | the `while (more == 1)` loop computes the array parse |
| JsonValidate.ParseObject | std/json_validate.fx:317-367 | the `while (more == 1)` loop computes the object parse |
| JsonValidate.ParseValue | std/json_validate.fx:369-409 | computes the value parse |
| JsonValidate.Validate | std/json_validate.fx:411-424 | returns 1 exactly on JSON texts of height at most 400, and 0 on all others |
| Arena.MaskClearsRemainder | host/cap/fx_cap_runtime.c:434 | on 64-bit words the mask expression clears exactly the remainder by the pointer size |
| Arena.MaskRoundsUp | host/cap/fx_cap_runtime.c:434 | the padding expression itself, on 64-bit words: below 2^63 it does not wrap, its result is aligned and less than one unit up, and no offset before it is aligned |
| Arena.PaddedRoundsUp | host/cap/fx_cap_runtime.c:434 | without wrap, the padded offset is the least aligned one that is not below arena_used |
| ArenaWords.PaddedWordIsPadded | host/cap/fx_cap_runtime.c:434 | below 2^63, the mask expression on a word is the word of the number that the bump allocator of the model pads to |
| Arena.BumpKeepsGrants | host/cap/fx_cap_runtime.c:429-440 | an allocation lies behind all earlier ones, is aligned and inside the arena, and the padding stays under one unit a grant |
| Arena.BumpIsNearest | host/cap/fx_cap_runtime.c:429-440 | a block goes to the first aligned place behind arena_used |
| Arena.BumpRefusesOnlyWhenFull | host/cap/fx_cap_runtime.c:434-437 | an allocation is refused exactly when no aligned place behind arena_used has room for it |
| Guest.SwapRemoveDrops | host/cap/fx_cap_runtime.c:297-304 | swap-remove from an array of distinct entries drops that entry and no other |
| Guest.SwapRemoveMovesLast | host/cap/fx_cap_runtime.c:297-304 | the last entry moves into the free place and all others stay |
| Guest.Session.Unlink | host/cap/fx_cap_runtime.c:289-306 | removes exactly this session from its parent's child array and clears the parent pointer |
| Guest.Session.RevokeTable | host/cap/fx_cap_runtime.c:330-358 | every capability of one table becomes a deny tombstone |
| Guest.Session.Close | host/cap/fx_cap_runtime.c:329-365 | revokes every capability of all five tables, releases the arena, and marks the session dead |
| GuestRuntime.LineIsLive | host/cap/fx_cap_runtime.c:613 | a live session has only live sessions above it |
| GuestRuntime.ChildlessIsAlone | host/cap/fx_cap_runtime.c:319-328 | once its child array is empty, nothing else in a session's subtree is live |
| GuestRuntime.FirstChild | host/cap/fx_cap_runtime.c:320-327 | the first listed child is live, points back, and has properly fewer live sessions below it, so the loop and the recursion end |
| GuestRuntime.DeadBelow | host/cap/fx_cap_runtime.c:316-318 | nothing below a dead session is live, neither session nor capability |
| GuestRuntime.Runtime.End | host/cap/fx_cap_runtime.c:308-370 | terminates; leaves every descendant and every capability minted by one dead; removes exactly this session from its parent's child array; changes nothing outside the subtree; revives nothing |
| GuestRuntime.Runtime.EndChildren | host/cap/fx_cap_runtime.c:319-327 | the child loop ends with an empty child array and the session itself otherwise untouched |
| GuestRuntime.Runtime.Begin | host/cap/fx_cap_runtime.c:263-287 | a new live root session with its root and its arena, of 64 KiB unless a positive size is given; or none for a root of 512 bytes or more; the invariant is kept |
| GuestRuntime.Runtime.BeginNested | host/cap/fx_cap_runtime.c:606-650 | a new live session listed last with its parent, with the given root or else the parent's; or none, exactly under a null or dead parent, 8 children, or a root of 512 bytes or more |
| GuestRuntime.Runtime.MintRooted | host/cap/fx_cap_runtime.c:372-418 | a live FsCap or OutCap under the given root, or else the session's own, in the session's table; or none, exactly for a null or dead session, 16 entries, or a root that is missing or of 512 bytes or more |
| GuestRuntime.Runtime.MintBudget | host/cap/fx_cap_runtime.c:455-478 | the same for AllocCap and FuelCap, which need a positive amount |
| GuestRuntime.Runtime.MintNet | host/cap/fx_cap_runtime.c:570-603 | a live NetCap for the given host and port range; or none, also for a host that does not fit or a port range that is not ordered within 1 to 65535 |
| GuestRuntime.Runtime.Alloc | host/cap/fx_cap_runtime.c:420-445 | grants the bump offset and records it, or changes nothing; a dead session grants nothing |
| GuestRuntime.Runtime.AllocThrough | host/cap/fx_cap_runtime.c:480-498 | grants exactly when the capability is live, its budget covers the request and the arena has room; then the block is where the bump allocator puts it, and the arena and the budget both pay, else neither changes |
| GuestRuntime.Runtime.Burn | host/cap/fx_cap_runtime.c:533-545 | succeeds exactly for a live FuelCap with enough units, and takes exactly those |
| GuestHistory.PerformMint | host/cap/fx_cap_runtime.c:372-603 | a mint of a history gives the requested kind of capability to the requested session, exactly if that is live, has room in its table and the request fits |
| GuestHistory.PerformSpend | host/cap/fx_cap_runtime.c:420-545 | an allocation or burn of a history is carried out when it fits, and touches nothing dead |
| GuestHistory.Perform | host/cap/fx_cap_runtime.c:263-650 | each operation of a history keeps the invariant, does what it names, and revives nothing |
| GuestHistory.Continue | host/cap/fx_cap_runtime.c:263-650 | every history of begin, nested begin, mint, alloc, burn and end keeps the forest invariant, and a session or capability that is dead at any point stays dead and grants nothing again |
| GuestHistory.LiveHasLiveLine | host/cap/fx_cap_runtime.c:606-650 | a live session's ancestors are all live, and its live parent lists it in a table of at most 8 |
| GuestHistory.GrantFits | host/cap/fx_cap_runtime.c:420-441 | every block granted by a session is aligned and inside its arena, and arena_used exceeds the granted bytes by less than one unit a block |
| GuestHistory.GrantsAreApart | host/cap/fx_cap_runtime.c:420-441 | the blocks granted by a session are pairwise disjoint |
| GuestHistory.CapFollowsSession | host/cap/fx_cap_runtime.c:329-358 | a capability is live exactly when its session is and sits in a table of at most 16; a live budget has remaining plus granted equal to what was minted, a dead one nothing |
| Channel.RingPush | host/concur/fx_chan.c:119-120 | writing at (head + len) mod cap appends to the queue |
| Channel.RingPop | host/concur/fx_chan.c:152-154 | reading at head and advancing it removes the first element |
| Channel.FxChan.constructor | host/concur/fx_chan.c:47-76 | an open empty channel, of capacity at least 1 |
| Channel.FxChan.SendPass | host/concur/fx_chan.c:111-122 | CLOSED on a closed channel, waits on a full one, else appends |
| Channel.FxChan.RecvPass | host/concur/fx_chan.c:147-161 | takes the first element if there is one, else CLOSED or waits; writes its out parameter only on OK |
| Channel.FxChan.TryRecv | host/concur/fx_chan.c:200-213 | takes the first element cut to 32 bits, else CLOSED or EMPTY without waiting or writing |
| Channel.FxChan.Close | host/concur/fx_chan.c:227-232 | closes, and keeps what is buffered |
| ChannelProtocol.StepKeepsInv | host/concur/fx_chan.c:93-234 | every atomic step of any thread keeps the no-lost-wakeup counts and the linearization |
| ChannelProtocol.NoLostWakeupOnAnyRun | host/concur/fx_chan.c:93-234 | in every state of every run: if a receiver sleeps, at least len receivers are awakened; if a sender sleeps, at least cap - len senders are; nobody sleeps once closed; and when everyone in the channel sleeps, they are all receivers with len 0 or all senders with len = cap |
| ChannelProtocol.SleepersHaveReason | host/concur/fx_chan.c:93-163 | when everyone in the channel sleeps, they are all receivers on an empty open channel or all senders on a full open one |
| ChannelProtocol.RunIsLinearizable | host/concur/fx_chan.c:93-234 | in every state of every run the completed calls, in lock order, are a legal history of a sequential bounded queue, and what was sent is what was received and then the buffer |
| ChannelProtocol.RealTimeOrder | host/concur/fx_chan.c:93-234 | that history keeps real-time order: a call invoked after another has returned is logged behind it, with an event that answers its own call |
| ChannelProtocol.Fifo | host/concur/fx_chan.c:93-214 | in every legal history what was sent equals what was received followed by what is buffered, in order |
| ChannelProtocol.NoSendAfterClose | host/concur/fx_chan.c:115-118 | no send succeeds behind a close |
| ChannelProtocol.ClosedMeansDrained | host/concur/fx_chan.c:150-153 | a receive says CLOSED only behind a close, when everything ever sent has been received, and from then on for good |
| Select.Interfere | host/concur/fx_chan.c:93-234 | one pass of another thread has exactly the effect of its move |
| Select.Lossless | host/concur/fx_chan.c:93-214 | over every history of polls and moves, what a channel held and what was added to it is what was removed from it and then what it holds, in order |
| Select.Round | host/concur/fx_select.c:24-37 | polls a and then b, and b only if a gave nothing; nothing else happens to the channels but the others' moves; at most one element is taken |
| Select.TookTheFirst | host/concur/fx_select.c:24-37 | what a call reports is what the chosen channel had first at its last poll, and every earlier poll found its channel empty, so a is preferred within a round |
| Select.SelectRecv2 | host/concur/fx_select.c:19-55 | under any interference, the channels are what the moves of the others and the polls a, b, a, b ... make of them, in exactly this order; OK means the last poll took the one element taken, and reports it and its channel; otherwise none was taken; every round that found nothing polled each channel; at most timeout + 1 rounds, and it ends, for every timeout below 2^32 - 1 |
| Select.SelectAlone | host/concur/fx_select.c:19-55 | with no one else about, the call takes an element if and only if one of the channels has one, from a if and only if a has one, and it is the first there |
| Select.SelectNothing | host/concur/fx_select.c:19-55 | with no channel the call times out if and only if its timeout is below 2^32 - 1; at 2^32 - 1 it polls for good |
| Nursery.FxNursery.Create | host/concur/fx_task_nursery.c:78-103 | an empty live nursery, or none for a size outside 1 to 64 |
| Nursery.SpawnAnswers | host/concur/fx_task_nursery.c:157-193 | when a spawn answers DEAD, FULL, ERR and OK, and that it adds a slot exactly on OK |
| Nursery.RequestSetsCancel | host/concur/fx_task_nursery.c:140-147 | a request sets the flag of a live nursery and nothing else |
| Nursery.PendingCountCounts | host/concur/fx_task_nursery.c:128-133 | the pending count is the number of slots that are not joined |
| Nursery.FxNursery.RequestCancel | host/concur/fx_task_nursery.c:136-148 | sets the cancel flag of a live nursery, DEAD otherwise |
| Nursery.FxNursery.Spawn | host/concur/fx_task_nursery.c:150-194 | DEAD, FULL or ERR change nothing; OK adds one slot that is not joined |
| Nursery.FxNursery.Pending | host/concur/fx_task_nursery.c:122-134 | counts the used slots that are not joined |
| Nursery.NextPending | host/concur/fx_task_nursery.c:274-279 | the first slot from a position on that is not joined |
| Nursery.FxNursery.Scan | host/concur/fx_task_nursery.c:274-279 | the join loop skips exactly the joined slots |
| Nursery.FxNursery.MarkJoined | host/concur/fx_task_nursery.c:216-223 | back under the lock, the slot is marked and the loop goes on to the next pending one |
| Nursery.FxNursery.EndShutdown | host/concur/fx_task_nursery.c:340-343 | the nursery is marked dead and nothing else |
| NurseryProtocol.StepKeepsInv | host/concur/fx_task_nursery.c:122-360 | every step keeps the joined slots a prefix, each joined once and only when its thread has ended |
| NurseryProtocol.RunsKeepInv | host/concur/fx_task_nursery.c:122-360 | the same in every state of every run that mixes spawns, joins, timed joins and shutdowns |
| NurseryProtocol.AnswersOfRun | host/concur/fx_task_nursery.c:262-344 | on every run a join or shutdown answers DEAD exactly if the nursery was dead, TIMEOUT or ERR only from a timed join that gives up, and OK otherwise; a shutdown that answers OK has requested cancel and left the nursery dead |
| NurseryProtocol.CallsReturn | host/concur/fx_task_nursery.c:274-344 | a join whose wait ends answers OK there and then, and a shutdown goes on to mark the nursery dead and answers OK |
| NurseryProtocol.StepEffects | host/concur/fx_task_nursery.c:136-360 | on every run, exactly which steps set cancel, end the nursery, free it, add a slot, and change a slot's flags |
| NurseryProtocol.OkMeansQuiescent | host/concur/fx_task_nursery.c:262-360 | with tasks that themselves spawn and cancel: a join or shutdown that returns OK leaves every spawned task ended and joined; a nursery is dead, and its slots are freed, only then |
| NurseryProtocol.QuiescenceLasts | host/concur/fx_task_nursery.c:150-194 | quiescence ends only by a new spawn of the owner, and a dead nursery stays dead |
| NurseryProtocol.JoinsOnlyGrow | host/concur/fx_task_nursery.c:262-319 | no step un-joins a slot; the next slot joined is the next in order, and its thread has ended; a timed join that gives up changes no slot and no flag |
| NurseryProtocol.JoinsOfRun | host/concur/fx_task_nursery.c:122-319 | on every run the slots joined are the first ones, in order and once each, and never un-joined; pending is the number of used slots less that prefix |
| NurseryProtocol.JoinAgain | host/concur/fx_task_nursery.c:262-319 | once a join has returned OK, and until the owner spawns or the nursery dies, every further join, timed or not, returns OK at once and changes nothing |
| NurseryProtocol.WaitingMakesProgress | host/concur/fx_task_nursery.c:262-289 | while the owner waits, no step adds work, and joins, thread ends and successful spawns use some up |
| NurseryProtocol.WaitingEnds | host/concur/fx_task_nursery.c:196-289 | on no run does a join get stuck or wait for good: the owner can go on or the thread it waits for can end, and at most 3 * cap joins, thread ends and spawns fit in one wait |
| SpawnSend.RoomToSend | host/concur/fx_chan.c:111-114 | with at least k free places for k tasks, no send ever waits |
| SpawnSend.RunsKeepInv | host/concur/fx_async_bridge.c:38-97 | in every state the buffer is the old contents and then a permutation of the values whose sends have returned |
| SpawnSend.JoinedMeansAllSent | host/concur/fx_async_bridge.c:83-97 | when join_all returns OK, the buffer is its old contents followed by a permutation of all the values |
| SpawnSend.JoinReturnsOk | host/concur/fx_async_bridge.c:83-97 | a join_all that is over, at once or after a wait, has answered OK, and the buffer is as said |
| SpawnSend.WaitingIsNotStuck | host/concur/fx_async_bridge.c:38-44 | while join_all waits, some step can be taken |
| SpawnSend.WaitingEnds | host/concur/fx_async_bridge.c:38-44 | every step meanwhile uses up work, so no interleaving goes on forever |
| SpawnSend.JoinEnds | host/concur/fx_async_bridge.c:83-97 | on every run, while join_all waits some step can be taken, and no more steps fit in the wait than there were sends, thread ends and joins to come |
| Lexer.Operator | compiler-source/lib/sh_lexer.fx:479-640 | one or two characters are read, never past the end |
| Lexer.ClassTable | compiler-source/lib/sh_lexer.fx:23-71 | the space, identifier start and identifier part characters, spelled out |
| Lexer.EmitTable | compiler-source/lib/sh_lexer.fx:87-178 | the bytes that can be given back, spelled out |
| Lexer.Scan | compiler-source/lib/sh_lexer.fx:294-648 | every turn of the main loop moves on, and stays inside the text unless it ran into its end |
| LexerMunch.SpaceIsSkipped | compiler-source/lib/sh_lexer.fx:296-297 | each of the four space characters is skipped |
| LexerMunch.CommentMunch | compiler-source/lib/sh_lexer.fx:301-314 | on any text, a line comment reaches to the first newline or to the end |
| LexerMunch.AttributeMunch | compiler-source/lib/sh_lexer.fx:315-352 | on any text, an attribute reaches to the bracket that balances its first one outside its strings, if there is one, and else to the end |
| LexerMunch.NumberMunch | compiler-source/lib/sh_lexer.fx:354-364 | on any text, a number is the longest run of digits |
| LexerMunch.NameMunch | compiler-source/lib/sh_lexer.fx:366-399 | on any text, an identifier token is the longest plain or dotted name, with its kind from the keyword table |
| LexerMunch.StringMunch | compiler-source/lib/sh_lexer.fx:401-424 | on any text, a string token is the inside up to the closing quote that is not escaped; without one, nothing is pushed and the text is used up |
| LexerMunch.CharMunch | compiler-source/lib/sh_lexer.fx:427-477 | a quote and a character or escape are a token with its value, and a closing quote belongs to it if there is one |
| LexerMunch.CharAtEnd | compiler-source/lib/sh_lexer.fx:427-477 | what the end of the text leaves of a char literal is a token of value 0 |
| LexerMunch.OperatorMunch | compiler-source/lib/sh_lexer.fx:479-640 | on any text, where no other form starts, the two-character operators of the symbol table come before the one-character ones, and any other character is skipped |
| LexerTheorems.LexOnce | compiler-source/lib/sh_lexer.fx:294-650 | the token stream is the tokens of one turn and then those of the rest |
| LexerProofs.ScanStops | compiler-source/lib/sh_lexer.fx:294-648 | no token or trivia looks past a following space, `#`, or `/` that does not follow another |
| LexerTheorems.LexShift | compiler-source/lib/sh_lexer.fx:399-419 | moving a text only moves the offsets of its identifier and string tokens |
| LexerTheorems.LexInOrder | compiler-source/lib/sh_lexer.fx:366-425 | on every text the slices of identifier and string tokens lie in the text, apart and in order |
| LexerTheorems.LexAppend | compiler-source/lib/sh_lexer.fx:283-650 | a closed text lexes the same whatever follows a separator |
| LexerTheorems.LexTrivia | compiler-source/lib/sh_lexer.fx:296-352 | a space, a newline-ended comment and a balanced attribute, with strings and escapes in it, yield no tokens |
| LexerTheorems.InsideCloses | compiler-source/lib/sh_lexer.fx:318-348 | the attribute loop passes over any balanced inside and comes out at the same depth |
| LexerTheorems.Composes | compiler-source/lib/sh_lexer.fx:283-650 | for closed a, lexing a, trivia and b gives the tokens of a and then those of b with moved offsets, if and only if the trivia is not a line comment right after a slash |
| LexerTheorems.SlashIsSwallowed | compiler-source/lib/sh_lexer.fx:301-314 | an instance of the exception |
| LexerPrint.LexPrint | compiler-source/lib/sh_lexer.fx:283-650 | well-formed lexemes joined by single spaces come back one for one with their kinds, values and source slices |
| LexerPrint.KeywordIsNameKind | compiler-source/lib/sh_lexer.fx:228-280 | the comparison chain is the keyword table |
| LexerPrint.NumeralIsExact | compiler-source/lib/sh_lexer.fx:354-364 | a number comes back with its decimal value if and only if that is at most 2^31 - 1 |
| LexerPrint.SliceStrExact | compiler-source/lib/sh_lexer.fx:180-193 | slice_str gives back the slice exactly when each of its bytes can be given back, and fails otherwise |
| LexerPrint.NamesAreGivenBack | compiler-source/lib/sh_lexer.fx:180-193 | slice_str gives back the name of every identifier and keyword token |
| LexerLoop.PushTok | compiler-source/lib/sh_lexer.fx:16-21 | the three vectors stay parallel and gain one token |
| LexerLoop.SliceEq | compiler-source/lib/sh_lexer.fx:73-85 | 1 exactly when the slice is the literal |
| LexerLoop.KeywordAt | compiler-source/lib/sh_lexer.fx:228-280 | the kind of the slice as a keyword |
| LexerLoop.SkipLine | compiler-source/lib/sh_lexer.fx:304-310 | the comment loop stops at the newline or the end |
| LexerLoop.SkipAttr | compiler-source/lib/sh_lexer.fx:318-348 | the attribute loop computes the attribute scan |
| LexerLoop.ScanDigits | compiler-source/lib/sh_lexer.fx:355-364 | the digit loop reads the whole run and accumulates it in i32 |
| LexerLoop.ScanWord | compiler-source/lib/sh_lexer.fx:367-397 | the nested loops read a whole dotted identifier |
| LexerLoop.ScanString | compiler-source/lib/sh_lexer.fx:402-417 | the loop finds the closing quote behind any escapes |
| LexerLoop.ScanChar | compiler-source/lib/sh_lexer.fx:427-477 | reads a char literal, its escape and its closing quote if there is one |
| LexerLoop.ScanOperator | compiler-source/lib/sh_lexer.fx:479-640 | the chain of tests pushes the operator's token, if any, and moves past it |
| LexerLoop.Turn | compiler-source/lib/sh_lexer.fx:294-648 | one turn of the loop computes one scan step |
| LexerLoop.LexSource | compiler-source/lib/sh_lexer.fx:283-650 | the main loop builds exactly the token stream |
| Encoding.HexBijection | std/encoding.fx:21-45 | decode undoes encode exactly on byte vectors, and encode undoes decode exactly on even-length lowercase hex |
| Encoding.HexDecodeEncode | std/encoding.fx:21-45 | encoding writes two lowercase digits a word; decoding them gives the low byte of each back |
| Encoding.HexOrder | std/encoding.fx:7-19 | the digits 0 to 9 and a to f in order, and the nibble that each stands for |
| Encoding.HexSpellsBits | std/encoding.fx:21-32 | the digits spell the bits of the bytes in order, the high half of each byte first |
| Encoding.HexDecodeSpellsBits | std/encoding.fx:34-45 | one byte for every whole pair, of any text, and for digits the bits they spell |
| Encoding.Base64Bijection | std/encoding.fx:79-136 | decode undoes encode exactly on byte vectors, and encode undoes decode exactly on canonical padded text with zero pad bits |
| Encoding.DecodeEncode | std/encoding.fx:79-136 | bytes encode to canonical text of 4 * ceil(n / 3) characters and decode back |
| Encoding.EncodeDecode | std/encoding.fx:79-136 | canonical text is what its bytes encode to |
| Encoding.EncodeAppend | std/encoding.fx:83-92 | encoding a + b is encoding a and then b exactly when 3 divides the length of a, or b is empty |
| Encoding.EncodeSpellsBits | std/encoding.fx:79-111 | the symbols' sextets are the bits of the bytes in order, then zero bits to fill up (RFC 4648, section 4) |
| Encoding.DecodeSpellsBits | std/encoding.fx:113-136 | each group of four characters decodes to the whole bytes that its symbols before the first pad spell, canonical or not, and what is left over is dropped |
| Encoding.SarOfPositive | std/encoding.fx:87-89 | shifting an i32 without the sign bit right shifts zeros in |
| Encoding.SarOfNegative | std/encoding.fx:87-89 | shifting an i32 with the sign bit right shifts copies of it in |
| Encoding.SignedOrder | std/encoding.fx:8-75 | comparing two i32 patterns compares the signed values |
| Encoding.AlphabetOrder | std/encoding.fx:47-61 | the alphabet of RFC 4648, Table 1, in order |
| Encoding.SextetOfSymbol | std/encoding.fx:63-77 | every symbol of the alphabet stands for one sextet, which encodes to it |
| Encoding.EncodeHex | std/encoding.fx:21-32 | the loop computes the hex encoding |
| Encoding.DecodeHex | std/encoding.fx:34-45 | the loop computes the hex decoding |
| Encoding.EncodeBase64 | std/encoding.fx:79-111 | the loop and its tail cases compute the base64 encoding |
| Encoding.DecodeBase64 | std/encoding.fx:113-136 | the loop computes the base64 decoding, on any text |

## Left out

* Bytes: a text is a Dafny string whose characters stand for bytes. The theorems hold for all strings, so in
  particular for those of bytes; the code does no UTF-8 check and neither does the model.
* i32 overflow: the language's documents do not define it; the model takes two's complement wrap-around for
  values. Positions and lengths are unbounded, so texts of 2^31 bytes and more are not modelled faithfully.
* Null out parameters, null channels and null nurseries answer ERR in the source; only null session and
  capability handles, and null channels of a select, are modelled. Raw handle casts are object references.
* Allocation always succeeds; whether a thread can be created is a parameter of a spawn. What a task does
  beyond spawning, cancelling, sending and ending is not modelled.
* Elements of a channel are unbounded integers; only the cut to 32 bits on their way out is modelled.
  `fx_chan_recv`, which cuts the result of `fx_chan_recv_i64` in the same way, has no member of its own.
* Using a channel or a nursery after it was destroyed, two joiners of one nursery, and foreign threads that
  spawn during a shutdown.
* The five C structs for capabilities are one class with a kind, and the child and capability tables are
  sequences of bounded length, so a NULL entry in a used part of a table does not exist.
* Standalone frees of capabilities, `path_allowed`, the match of a NetCap, and everything that reads or
  writes files, sockets, the clock or processes.
* Windows branches and the portable fallback of the timed join: the POSIX and Linux branches are modelled.
  A timed join may time out at any moment.
* The nested `else` blocks of the lexer's operator tests are one chain of tests, and its inner loops are
  methods of their own; `mangle_upper_slice` and the `expect_` helpers are not part of this model.
* The rest of `fx_async_bridge.c`, `fx_mutex.c`, `fx_mailbox.c`, `fx_supervise.c`, `sh_emit.fx`, and the other
  modules of the standard library, which would only add easy members.
