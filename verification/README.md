# WebQ: a verified model

WebQ queues the visitors of an overloaded web site. TokenGens hand out waiting
times, a primary and a backup Controller share the capacity out among them, and
TokenCheck is a bundled lighttpd 1.4.18 whose configuration parser is generated by
LEMON. This project models the parts of these programs that carry the most state
and arithmetic, and proves what they promise. `dafny verify dfyconfig.toml` checks
everything.

| part | files |
|---|---|
| Controller failover, capacity split, virtual queue | `Failover`, `FailoverMessages`, `ShareMessages`, `ControllerProcess`, `CapacitySplit`, `VirtualQueue`, `QueueTimeline`, `QueueClosedForm` |
| LEMON: first and follow sets, conflicts, compression, table packing, the parser driver, list sort | `Derivations`, `LemonSets`, `LemonFirst`, `LemonFollow`, `LemonActions`, `LemonResolve`, `LemonCompress`, `ActionTable`, `LemonTables`, `LemonDriver`, `LemonSound`, `ParseForest`, `LemonComplete`, `ForestSize`, `LemonEnds`, `MergeSort`, `MergeSortList` |
| lighttpd: condition cache | `CondMeaning`, `CondCache`, `CondConnection` |
| lighttpd: buffers, paths, URLs | `Bytes`, `PathSpec`, `PathLaws`, `PathSimplify`, `Url`, `UrlLaws` |
| lighttpd: the sorted array | `CaselessOrder`, `IndexSearch`, `SortedIndex`, `IndexAgreement`, `ArrayStore` |
| lighttpd: MD5 | `LittleEndian`, `Md5` |
| lighttpd: chunked responses, directory sort | `ChunkQueue`, `HttpChunk`, `CombSort` |

Code that updates state in place is modelled by classes, arrays and loops, each proved
against a function on values; the theorems are about those functions (`Options` and
`Counting` hold what several parts share). Failover is a
state machine: any interleaving of handlers, timers and deliveries is a run.

## What turned out false

Where a promise does not hold of the code, the model keeps the code, gives an input on
which it fails and, where that depends on the input, proves exactly when it holds.

- Promotion by a majority: the loop in `timeout()` that clears the votes of earlier
  attempts runs after the count was set to 0, so a late vote can be counted, cleared and
  counted again (`OneTokenGenCanPromote`). A promotion has a majority of the TokenGens
  behind it if and only if its count reaches n/2+1 without those counted twice
  (`PromotesIff`, `PromotionIsElection`).
- One primary: a cut-off primary stays primary (`TwoPrimariesArePossible`). There are two
  exactly while each was made primary and has not received the takeover of the other since
  (`TwoPrimariesIff`).
- A TokenGen's way back: after two timeouts in a row it ignores every share message
  (`SecondTimeoutOrphans`).
- Split without traffic: `1/no_of_proxy` is an integer division (`ZeroLoadIff`).
- First come, first served: a raise of the share lets later requests overtake
  (`RaiseOvertakes`), exactly if a second before the earlier booking has room under the new
  share (`OvertakesIff`), and never without a raise (`LaterIsNotEarlier`).
- Cached TRUE: a block that applies can cease to when an earlier block of the chain becomes
  decidable (`GrowthCanOverturnTrue`, exactly: `TrueSurvivesIff`). The cache follows, except
  below a block that has ceased to apply. With inputs becoming known in a given order, a
  connection can be answered wrongly exactly if some else-chain of an enclosing block starts
  with a test of an input that comes after all inputs of the nesting (`TrustedIffSafe`).
  In the order of the server that can happen (`ServerOrderDecides`).
- An end for every input: a parser can reduce for ever if a symbol derives itself
  (`CyclicCanLoop`), and only then (`GeneratedParserEnds`).
- The empty input: the generated parser ignores it, even if the grammar has the empty
  sentence (`GeneratedParserDecides`).
- `array_get_index`: the caseless comparison is not an order on alphabets that mix cases
  with one of the six characters between them, such as the underscore; stored keys are
  then lost (`TrustedIffOrderly`, `ClashLosesAKey`).
- `buffer_path_simplify`: for a blank path the stored length is one too large (`Simplify`).
- `msort`: the 2^30-th node overwrites the top bin (`SortIsPermutation`).
- `MD5_Update`: the block loop never ends if the place in the buffer plus the length reach
  2^32 (`LoopEndsIff`).
- Chunked bodies: an empty payload ends the body, a length of 2^32 or more is cut to eight
  digits, and an unused buffer or an empty file leaves a size line that nothing can follow
  (`RoundTripIff`, `HeaderIsLengthIff`, `UnusedBufferSpoils`, `EmptyFileSpoils` in
  `HttpChunk`).
- URL round trip: control characters and DEL come back as underscores (`RoundTripIff` in
  `Url`).

Comments that disagree with the code: the table of encoded characters lists the at sign
but does not encode it; the cache of unused chunks is said to hold four and holds five;
`array_insert_unique` allows INT_MAX entries for the sake of `array_get_index`, whose
`int` position already overflows above 2^30. The model follows the code in the first two
and has unbounded positions in the third.

## Model

| member | source | states |
|---|---|---|
| `Failover.StepKeepsInv` | Controller/src/proxy1.c:266-368 | Every atomic step of the two controllers, the TokenGens and the network keeps the invariant: counted votes were cast, the vote count equals the distinct TokenGens with an entry of this attempt plus the distinct ones counted before their entry was cleared, a cleared flag means the TokenGen has adopted this controller, every promotion on record rests on enough counted votes. |
| `Failover.RunKeepsInv` | Controller/src/proxy1.c:799-890 | The invariant holds after every run from any stored controller numbers, with messages lost, delayed, reordered or delivered again and timers firing at any time. |
| `Failover.PromotionNeedsMajority` | Controller/src/proxy1.c:829-873 | In every run, a controller that did not start as primary and is primary has a promotion on record, and n/2+1 distinct TokenGens behind it received its change request while their id was -1 if and only if the votes counted, without the TokenGens counted twice, reach n/2+1. |
| `Failover.PromotionIsElection` | Controller/src/proxy1.c:863-868 | For each promotion of every run: all TokenGens counted for it were asked by that controller while they had no controller, and they are a majority if and only if the count minus the TokenGens counted twice reaches n/2+1, so in particular if none was counted twice. |
| `Failover.PromotionsShareAVoter` | Controller/src/proxy1.c:950 | Any two promotions of a run whose votes reach n/2+1 without those counted twice, by the same controller or by both, have a TokenGen in common, because the majority is n/2+1. |
| `Failover.PromotesIff` | Controller/src/proxy1.c:829-873 | When the wait for votes ends, the controller promotes itself if and only if the TokenGens with an entry and those with a stray vote since it lost contact, each counted for itself, reach n/2+1; and it does so with fewer than n/2+1 distinct TokenGens behind it if and only if those in both sets are what makes up the number. |
| `Failover.RunCountsStrays` | Controller/src/proxy1.c:296-302 | After every run the TokenGens counted too early are exactly those whose vote the controller accepted since it last lost contact while the clearing loop had yet to pass their entry. |
| `Failover.CountedIs` | Controller/src/proxy1.c:296-302 | After every run a TokenGen has an entry of this attempt, or is a stray, if and only if a vote of it was delivered and counted since contact was last lost, after or before its entry was cleared. |
| `Failover.PromotionCounts` | Controller/src/proxy1.c:834-872 | Every promotion on record was decided on exactly these votes, so that the TokenGens counted twice for it are those whose vote was delivered both before and after their entry was cleared in that attempt. |
| `Failover.OneTokenGenCanPromote` | Controller/src/proxy1.c:834-842 | Without that condition the majority claim is false of the code: a run in which a late vote arrives during the clearing loop, is counted, cleared and counted again, so that one TokenGen out of two promotes the backup. |
| `Failover.VotesWereAsked` | TokenGen/src/proxy1.c:369-384 | Whoever is recorded as having voted for a controller received its change request earlier in the run while its id was -1. |
| `Failover.OnlyCountingPromotes` | Controller/src/proxy1.c:266-368 | No message handler and no other step makes a controller primary: only the decision at the end of the wait does. |
| `Failover.PrimaryWasPromoted` | Controller/src/proxy1.c:863-868 | A controller that has become primary in a run has a promotion on record. |
| `Failover.SwitchEndsWhenAllAdopted` | Controller/src/proxy1.c:799-827 | switch_controller leaves its loop only after every TokenGen had this controller as its own at some point of the run, although answers clear the flags while the loop scans them. |
| `Failover.AdoptionsHappened` | TokenGen/src/proxy1.c:385-403 | A TokenGen recorded as having adopted a controller had it as its own at some point of the run. |
| `Failover.StepsDownIff` | Controller/src/proxy1.c:319-336 | Nothing makes a primary step down but the delivery of its peer's takeover. |
| `Failover.PrimaryIff` | Controller/src/proxy1.c:829-873 | After every run, from any state, a controller is primary if and only if it started as primary or won a count, and no takeover of its peer was delivered to it since. |
| `Failover.TwoPrimariesIff` | Controller/src/proxy1.c:829-873 | There are two primaries after a run if and only if each was made primary and has not been delivered the takeover of the other since. |
| `Failover.TwoPrimariesArePossible` | Controller/src/proxy1.c:829-873 | Such a run exists: an old primary that is only cut off stays primary beside the new one. |
| `Failover.HeartbeatEndsAttempt` | Controller/src/proxy1.c:853-859 | A heartbeat during the wait for votes puts the backup under its peer again; whatever happens until the loop looks, it then ends the attempt as an idle backup without a promotion, however many votes were counted. |
| `Failover.SecondTimeoutOrphans` | TokenGen/src/proxy1.c:329-339 | A TokenGen whose timer fires while it has no controller stays without one in every run, whatever share messages and other messages it receives, if and only if no takeover is delivered to it. |
| `Failover.ShareBringsBack` | TokenGen/src/proxy1.c:329-339 | After a single timeout the next share message of its own controller, and of no other, brings it back. |
| `FailoverMessages.SentIff` | Controller/src/proxy1.c:266-368 | In every run a message is on its way if and only if there was a reason to send it: heartbeats and shares come from a primary, change requests from the end of the clearing loop to each of the n TokenGens, votes from a TokenGen without a controller, refusals from one with, takeovers from a controller that switches or, again, from a primary whose peer has not answered, answers from whoever was taken over. |
| `FailoverMessages.TakeoverNeedsPromotion` | Controller/src/proxy1.c:799-827 | In every run nobody is told to change to a controller that has not won a count, and no flag of such a controller is up. |
| `FailoverMessages.PeerFlagIff` | Controller/src/proxy1.c:355-368 | In every run the peer flag is up exactly since the takeover was announced, until the answer of the peer reaches the controller as a primary. |
| `FailoverMessages.FlagIff` | Controller/src/proxy1.c:340-353 | In every run the flag of a TokenGen is up exactly since it was raised, until its answer reaches the controller as a primary. |
| `FailoverMessages.HeardIff` | Controller/src/proxy1.c:276-283 | In every run an attempt can be abandoned exactly if a heartbeat came since contact was lost. |
| `FailoverMessages.StartsQuietly` | Controller/src/proxy1.c:905-925 | Every run starts with nothing sent, no flag up, no vote and no share. |
| `FailoverMessages.LostAtStart` | TokenGen/src/proxy1.c:12-15 | A TokenGen that is stored as lost belongs to controller 0 until its first takeover. |
| `ShareMessages.ShareIsLastTaken` | TokenGen/src/proxy1.c:314-339 | After every run the share of a TokenGen is that of the last message it took, one that is not 0 and came from its controller, or from the one it had lost; and its first one if there was none. |
| `ShareMessages.AdmitsUnderShare` | TokenGen/src/proxy1.c:622-632 | However requests and ticks fall between the share messages, the virtual queue admits requests under that share, or under 1 while it is 0. |
| `ControllerProcess.Controller.HandleHeartbeat` | Controller/src/proxy1.c:266-285 | In every state of the protocol with this process in it, the handler does to the process and to the network exactly what the delivery of a heartbeat does: a backup that gave up takes its primary back, a primary whose peer has not answered sends its takeover again. |
| `ControllerProcess.Controller.HandleVote` | Controller/src/proxy1.c:287-303 | The same for a vote: the TokenGen is counted once for each time its entry is cleared, and nothing is sent. |
| `ControllerProcess.Controller.HandleTakeover` | Controller/src/proxy1.c:319-338 | The same for the takeover of the other controller, which is acknowledged; this is the one step by which a primary steps down. |
| `ControllerProcess.Controller.HandleAdoption` | Controller/src/proxy1.c:340-353 | The same for the answer of a TokenGen that has changed controller. |
| `ControllerProcess.Controller.HandlePeerAck` | Controller/src/proxy1.c:355-368 | The same for the acknowledgement of the other controller. |
| `ControllerProcess.Controller.Timeout` | Controller/src/proxy1.c:829-848 | The first part of timeout() is, on the whole system, the loss of contact and n+1 turns of the clearing loop; it leaves no vote and no count, and sends a change request to every TokenGen. |
| `ControllerProcess.Controller.CountVotes` | Controller/src/proxy1.c:863-872 | The end of timeout() is, on the whole system, the decision step; it promotes exactly on n/2+1 counted votes, and the promotion goes on record with the TokenGens counted. |
| `ControllerProcess.Controller.RaiseFlags` | Controller/src/proxy1.c:804-811 | The first loop of switch_controller is n+1 switch steps of the system: every flag is raised and every takeover sent. |
| `ControllerProcess.Controller.Scan` | Controller/src/proxy1.c:812-826 | One turn of the waiting loop is n+1 switch steps of the system; it ends the wait if and only if no flag is raised, and repeats the takeover where one is. |
| `ControllerProcess.AgainIsRun` | Controller/src/proxy1.c:799-827 | Repeating a step is a run, so that what is proved of all runs holds of these loops. |
| `ControllerProcess.Controller.CalcSoc` | Controller/src/proxy1.c:92-140 | A primary stores exactly the capacity split of the incoming rates; a backup stores nothing. |
| `ControllerProcess.TokenGenLink.HandleChangeRequest` | TokenGen/src/proxy1.c:369-384 | In every state of the protocol with this TokenGen in it, the handler and its reply are the delivery of the change request, and the TokenGen is recorded as having voted exactly if the reply is a vote. |
| `ControllerProcess.TokenGenLink.HandleTakeover` | TokenGen/src/proxy1.c:385-403 | The handler and its reply are the delivery of the takeover, with the adoption on record. |
| `ControllerProcess.TokenGenLink.HandleShare` | TokenGen/src/proxy1.c:314-339 | The handler is the delivery of the share message, of which it is proved over all runs which share is taken. |
| `ControllerProcess.TokenGenLink.Timeout` | TokenGen/src/proxy1.c:523-529 | The timer is the step in which the TokenGen loses its controller and remembers it. |
| `CapacitySplit.SplitBound` | Controller/src/proxy1.c:104-140 | With m active and k idle TokenGens and a non-zero total rate, the shares add up to capacity + k, give or take m/2. |
| `CapacitySplit.RoundedTotal` | Controller/src/proxy1.c:130-139 | Up to any TokenGen the rounded shares stray from the exact parts by at most half a request for each active one. |
| `CapacitySplit.RoundIsNear` | Controller/src/proxy1.c:136 | A share is rounded to the nearest integer, and on a tie away from zero. |
| `CapacitySplit.BookingsWithinCapacity` | Controller/src/proxy1.c:104-140 | If every share is positive and the only one but 0 that its TokenGen is sent, the bookings for one second at each TokenGen never exceed capacity + m/2 + k in any runs of the TokenGens. |
| `CapacitySplit.BookingsUnderShare` | TokenGen/src/proxy1.c:627-661 | Whatever happens, no second of a TokenGen that is only ever sent one share holds more bookings than that share. |
| `CapacitySplit.ZeroShareIff` | Controller/src/proxy1.c:132-137 | An active TokenGen is given 0, which it does not adopt, exactly if twice its rate times the capacity is below the total rate. |
| `CapacitySplit.ZeroLoadIff` | Controller/src/proxy1.c:123-128 | Without traffic the shares add up to the capacity exactly for a single TokenGen or a capacity of 0: the integer quotient 1 / n makes every other share 0. |
| `VirtualQueue.FirstFit` | TokenGen/src/proxy1.c:627-661 | The first of the coming LIMIT seconds with fewer bookings than the share: all before it are full, it is not, LIMIT if all are full. |
| `VirtualQueue.FitIsUnique` | TokenGen/src/proxy1.c:627-661 | Those three facts determine the wait. |
| `VirtualQueue.TokenGen.Search` | TokenGen/src/proxy1.c:627-661 | The loop over the ring finds that second. |
| `VirtualQueue.TokenGen.Admit` | TokenGen/src/proxy1.c:622-667 | A request raises a share of 0 to 1, is booked into the first second with room and told to wait that long, or is turned away and changes nothing else. |
| `VirtualQueue.TokenGen.Book` | TokenGen/src/functions.h:105-112 | One more visitor in the slot of the chosen second and nowhere else. |
| `VirtualQueue.TokenGen.Advance` | TokenGen/src/timer.h:292-293 | A tick empties the current slot and moves on to the next, round the ring. |
| `VirtualQueue.TokenGen.SetShare` | TokenGen/src/proxy1.c:329-332 | A new share changes nothing but the share. |
| `QueueTimeline.RingRefinesTimeline` | TokenGen/src/proxy1.c:627-661 | After every run, slot T mod LIMIT of the ring holds the bookings of absolute second T of an unbounded timeline, for each of the next LIMIT seconds. |
| `QueueTimeline.StepRefines` | TokenGen/src/proxy1.c:622-661 | Each request, tick and share message keeps that relation and yields the same wait on both. |
| `QueueTimeline.SlotOfSecond` | TokenGen/src/proxy1.c:632 | The slots of the next LIMIT seconds are those seconds modulo LIMIT. |
| `QueueTimeline.AdmittedIsExpiredPlusBooked` | TokenGen/src/proxy1.c:653-660 | In every run the admitted requests are the expired ones plus those still booked, and no second holds more bookings than the largest share seen. |
| `QueueTimeline.LaterIsNotEarlier` | TokenGen/src/proxy1.c:627-661 | Only a larger share overtakes: whatever happened in between, a request that finds no larger share than an earlier booked one, a share of 0 counting as 1, does not get an earlier second. |
| `QueueTimeline.OvertakesIff` | TokenGen/src/proxy1.c:627-661 | A request gets an earlier second than one booked before it, at any later point of any run, if and only if some second from then to that booking holds fewer bookings than the share it finds. |
| `QueueTimeline.RaiseOvertakes` | TokenGen/src/proxy1.c:329-332 | A run in which that happens: with share 1 the second request is told to wait a second; after a raise to 3 the third request is not. |
| `QueueClosedForm.ClosedForm` | TokenGen/src/proxy1.c:627-661 | From any ring that a backlog determines under a share s of at least 1, and while messages only repeat s or carry 0, every run leaves the ring full for k seconds, partly full once, then empty, as its backlog determines; the next request waits backlog / s seconds and is refused exactly if the backlog is LIMIT * s. |
| `QueueClosedForm.ClosedFormFromStart` | TokenGen/src/proxy1.c:329-332 | A TokenGen starts without a share and without bookings; whatever time passes before its first share, the closed form holds from then on. |
| `QueueClosedForm.RequestKeepsFilled` | TokenGen/src/proxy1.c:653-660 | A request keeps that shape and adds one to the backlog unless the ring is full. |
| `QueueClosedForm.TickKeepsFilled` | TokenGen/src/timer.h:292-293 | A tick keeps that shape and takes s, or all there is, off the backlog. |
| `QueueClosedForm.WaitIsBacklogOverShare` | TokenGen/src/proxy1.c:662-670 | The wait is exactly the backlog divided by s, rounded down, and a request is turned away if and only if the backlog is LIMIT * s. |
| `QueueClosedForm.BacklogIsContents` | TokenGen/src/proxy1.c:627-661 | The backlog is the number of bookings in the ring. |
| `ActionTable.Acttab.constructor` | TokenCheck/lighttpd/src/lemon.c:442-450 | An empty table with no row stored and none collected. |
| `ActionTable.Acttab.Action` | TokenCheck/lighttpd/src/lemon.c:454-478 | Adds one entry to the row being collected and keeps track of its extremes; the table is untouched. |
| `ActionTable.Acttab.FitsAt` | TokenCheck/lighttpd/src/lemon.c:519-531 | If it says yes, the whole row meets only empty slots inside the table and no slot in use becomes visible at the new offset. |
| `ActionTable.Acttab.SameAt` | TokenCheck/lighttpd/src/lemon.c:532-548 | If it says yes, the slots visible at the offset are exactly the entries of the row, by the counting test of the code. |
| `ActionTable.Acttab.FindIndex` | TokenCheck/lighttpd/src/lemon.c:518-550 | The search ends at an index where the row fits or is already there, and every access stays in the allocated table. |
| `ActionTable.Acttab.Write` | TokenCheck/lighttpd/src/lemon.c:551-556 | The table afterwards is the table before overlaid with the row, and the used part covers it. |
| `ActionTable.Acttab.Insert` | TokenCheck/lighttpd/src/lemon.c:487-562 | Stores the collected row and returns its offset; every row ever stored is still shown, no more and no less, at the offset it was given. |
| `ActionTable.ShownRowIsReadBack` | TokenCheck/lighttpd/src/lempar.c:322-386 | Reading at the offset of a stored row, with the range and lookahead checks of the driver, yields exactly the action of that row on any lookahead, or a miss. |
| `ActionTable.SharedOffsetMeansSameRow` | TokenCheck/lighttpd/src/lemon.c:532-548 | Two rows are given the same offset only if they hold the same entries. |
| `ActionTable.EqualCountsMeanNoForeignEntry` | TokenCheck/lighttpd/src/lemon.c:534-547 | If all entries of the row are in place and as many slots are visible as the row has entries, no other entry is visible. |
| `ActionTable.FittingRowKeepsOthers` | TokenCheck/lighttpd/src/lemon.c:519-531 | Writing a row that fits hides and adds nothing at the offset of any row stored before. |
| `MergeSort.SortIsStable` | TokenCheck/lighttpd/src/lemon.c:1550-1574 | For every total preorder and every list of fewer than 2^30 nodes the result is sorted, and nodes that compare equal keep their order, none lost and none made up. |
| `MergeSort.SortIsPermutation` | TokenCheck/lighttpd/src/lemon.c:1550-1574 | The result holds the same nodes if and only if there are fewer than 2^30 of them: the 2^30-th overwrites the top bin. |
| `MergeSort.FillTotal` | TokenCheck/lighttpd/src/lemon.c:1561-1570 | Bin i always holds nothing or exactly 2^i nodes, and nothing is lost exactly while fewer than 2^n nodes have been carried into n bins. |
| `MergeSort.MergeSorted` | TokenCheck/lighttpd/src/lemon.c:1498-1534 | Merging two sorted lists gives a sorted list. |
| `MergeSort.MergeClass` | TokenCheck/lighttpd/src/lemon.c:1510-1532 | On ties the second list goes first, so that each class of equal nodes is the part of the second list followed by that of the first. |
| `MergeSortList.MergeLists` | TokenCheck/lighttpd/src/lemon.c:1498-1534 | merge relinks the next pointers of two disjoint lists into the list that the sequence algorithm computes. |
| `MergeSortList.CarryNode` | TokenCheck/lighttpd/src/lemon.c:1562-1569 | The inner loop leaves the thirty bins as the sequence algorithm does, each a list of its own. |
| `MergeSortList.Msort` | TokenCheck/lighttpd/src/lemon.c:1550-1574 | For a list of any length, msort relinks its nodes into the list that the sequence algorithm computes. |
| `LemonActions.FindIgnoresOrder` | TokenCheck/lighttpd/src/lemon.c:359-372 | In a list with at most one usable action on each symbol, which action is found does not depend on the order. |
| `LemonActions.SortKeepsMoves` | TokenCheck/lighttpd/src/lemon.c:375-380 | Sorting the actions of a state by symbol, kind and rule changes no move. |
| `LemonActions.ResolveConflict` | TokenCheck/lighttpd/src/lemon.c:979-1033 | Of two actions that fight, exactly one stays as it was and the other is switched off; a conflict is counted exactly if precedence decides nothing; actions that do not fight are untouched. |
| `LemonActions.PrecedenceDecides` | TokenCheck/lighttpd/src/lemon.c:987-1018 | The higher declared precedence wins whichever action comes first; on a tie of a shift and a reduce associativity decides; in every other case the first action stays and the conflict is reported. |
| `LemonActions.ChampionStays` | TokenCheck/lighttpd/src/lemon.c:987-1018 | An action whose precedence is above that of every other action on its symbol is the one that is kept. |
| `LemonActions.ShiftStays` | TokenCheck/lighttpd/src/lemon.c:979-1005 | A shift that no reduce wins against, by precedence or by left associativity, is kept. |
| `LemonActions.SmallestRuleStays` | TokenCheck/lighttpd/src/lemon.c:1006-1018 | Of reduces on a symbol that precedence does not separate, the one by the rule with the smallest number is kept, unless there is a shift that it does not win against. |
| `LemonActions.LineupIsUnique` | TokenCheck/lighttpd/src/lemon.c:359-372 | The shift before the reduces, and the reduces by their rule numbers: there is only one such order of the actions on a symbol. |
| `LemonResolve.State.ResolveAll` | TokenCheck/lighttpd/src/lemon.c:936-949 | After sorting and letting every two actions on a symbol fight, exactly one usable action is left on each symbol that had any: the one left standing when, in the order of the line-up, each challenges the one left so far; and the number returned is that of the actions marked as conflicts. |
| `LemonResolve.FightOne` | TokenCheck/lighttpd/src/lemon.c:943-946 | After every single fight of the two nested loops it is known exactly which actions have been switched off. |
| `LemonCompress.MostFrequent` | TokenCheck/lighttpd/src/lemon.c:3614-3632 | The rule chosen for the default is one reduced by on a largest number of symbols, although symbols of the best rule so far are skipped while counting. |
| `LemonCompress.DefaultedMoves` | TokenCheck/lighttpd/src/lemon.c:3639-3648 | Merging the reduces by one rule into a default keeps the move on every symbol and turns errors into that reduce. |
| `LemonCompress.Compress` | TokenCheck/lighttpd/src/lemon.c:3603-3650 | Compressing a state keeps its move on every symbol, and where there was an error gives an error or the most frequent reduce. |
| `LemonTables.RowSays` | TokenCheck/lighttpd/src/lemon.c:2768-2782 | The row of a state holds, for each terminal or nonterminal, the code of the action the state has on it, and nothing else. |
| `LemonTables.PackRows` | TokenCheck/lighttpd/src/lemon.c:3321-3349 | The packing loop, which stops at the first empty row, gives every state with a row the offset of a stored copy of it. |
| `LemonTables.ReportTable` | TokenCheck/lighttpd/src/lemon.c:3284-3426 | Looking up any state and terminal, or nonterminal, in the emitted tables gives the code of the move of that state, default included; the use-default sentinel stands exactly at states without a row and is no offset of a row. |
| `LemonDriver.ActionsAgree` | TokenCheck/lighttpd/src/lempar.c:322-355 | Where the original lists have a move on a terminal, the generated tables have the same. |
| `LemonDriver.GotosAgree` | TokenCheck/lighttpd/src/lempar.c:365-386 | After a reduce, the tables lead where the original lists do. |
| `LemonDriver.RunsAgree` | TokenCheck/lighttpd/src/lempar.c:558-688 | Two parsers of which one follows the other take the same steps for as long as the followed one meets no syntax error. |
| `LemonDriver.ParsesAlike` | TokenCheck/lighttpd/src/lempar.c:558-688 | Every run of the original automaton without a syntax error is, step for step and with the same stack, shifts and reduces, a run on the compressed and packed tables. |
| `LemonDriver.OrderJobs` | TokenCheck/lighttpd/src/lemon.c:3308-3321 | The rows are packed largest first, each state once for terminals and once for nonterminals. |
| `LemonDriver.Generate` | TokenCheck/lighttpd/src/lemon.c:1424-1436 | From the actions the state builder collected, resolving, compressing and packing produce tables that agree with the compressed lists, which agree with the resolved ones. |
| `LemonSound.GeneratedParserIsSound` | TokenCheck/lighttpd/src/lempar.c:558-688 | For the action lists of any automaton whose states carry LR items that sanction them, the parser on the compressed and packed tables accepts an input only after reading all of it up to the end marker, and only if it derives from the start symbol, although errors have become reductions; and it never pops what is not on the stack. |
| `LemonSound.AcceptsSentencesOnly` | TokenCheck/lighttpd/src/lempar.c:558-688 | The same for any source of actions that respects the items. |
| `LemonSound.StepKeeps` | TokenCheck/lighttpd/src/lempar.c:589-610 | Each turn of the loop keeps the stack standing for what has been read: its symbols derive the tokens shifted so far. |
| `LemonSound.EndsEmpty` | TokenCheck/lighttpd/src/lempar.c:517-533 | A parser that has accepted or overflowed has emptied its stack. |
| `LemonSound.Handle` | TokenCheck/lighttpd/src/lempar.c:477-479 | What stands before the dot of an item of the top state stands on top of the stack, so that a reduction pops exactly the right-hand side of its rule and uncovers a state that expects the left-hand side. |
| `LemonSound.DefaultIsSanctioned` | TokenCheck/lighttpd/src/lemon.c:3634-3648 | The reduction that compression puts in place of errors is one of the state itself and never by a start rule, because a default needs two lookaheads. |
| `LemonSound.ResolvedIsLabelled` | TokenCheck/lighttpd/src/lemon.c:936-949 | Resolving conflicts keeps the lists in step with the items. |
| `LemonComplete.GeneratedParserDecides` | TokenCheck/lighttpd/src/lempar.c:558-688 | For an automaton whose states carry LR items closed under the moves of the dot, with the tokens that may follow them, and whose lists have no conflict, the parser on the compressed and packed tables accepts an input if and only if the input is not empty and has a parse tree that fits into the stack of 100. |
| `LemonComplete.GeneratedParserIsComplete` | TokenCheck/lighttpd/src/lempar.c:558-688 | Every parse tree of a non-empty input makes that parser accept, or overflow if and only if the tree needs more than 100 places. |
| `LemonComplete.AcceptsEverySentence` | TokenCheck/lighttpd/src/lempar.c:558-688 | The same for any source of actions that serves its items. |
| `LemonComplete.ParseRow` | TokenCheck/lighttpd/src/lempar.c:589-610 | From any stack whose top state expects an item, the parser puts the trees behind the dot on the stack, reads exactly their tokens and comes to a state that expects the end of the item, or overflows exactly if they do not fit. |
| `LemonComplete.ClosedBefore` | TokenCheck/lighttpd/src/lemon.c:1162-1184 | The token behind a tree, found through trees that may be empty, is one its rule may be reduced before. |
| `LemonComplete.ListsServe` | TokenCheck/lighttpd/src/lemon.c:907-934 | Lists with a shift for every symbol behind a dot, a reduce for every token that may follow a finished item and an accept on the start symbol serve their items, and resolving conflicts keeps that where there are none. |
| `LemonComplete.FollowSetsSpread` | TokenCheck/lighttpd/src/lemon.c:858-889 | The follow sets that the propagation ends with, over the links of the state builder and from the sets of its closure, tell every item what may follow it. |
| `ForestSize.ForestSizeBound` | TokenCheck/lighttpd/src/lempar.c:558-688 | In a grammar in which no symbol derives itself, the number of nodes of k parse trees over m tokens is bounded by a function of k and m, empty subtrees included. |
| `ForestSize.RowDepth` | TokenCheck/lighttpd/src/lempar.c:558-688 | On a path of a parse tree that keeps the whole text no symbol occurs twice, so that its length is bounded by the length of the text times the number of symbols. |
| `LemonEnds.GeneratedParserSettles` | TokenCheck/lighttpd/src/lempar.c:558-688 | Without conflicts and cycles every input comes to its verdict within a bounded number of turns: ignored exactly if it is empty, accepted exactly if it has a parse tree that fits into the stack, otherwise a syntax error or an overflow. |
| `LemonEnds.GeneratedParserEnds` | TokenCheck/lighttpd/src/lempar.c:558-688 | For any automaton whose states carry LR items, conflicts resolved or not, the parser on the compressed and packed tables ends on every input if no symbol of the grammar derives itself, although errors have become reductions. |
| `LemonEnds.EveryRunEnds` | TokenCheck/lighttpd/src/lempar.c:558-688 | The same for any source of actions that respects the items. |
| `LemonEnds.RunBuilds` | TokenCheck/lighttpd/src/lempar.c:589-610 | Every turn that leaves the parser running adds one token or one node to the trees on its stack. |
| `LemonEnds.CyclicCanLoop` | TokenCheck/lighttpd/src/lempar.c:589-610 | With a cycle the parser can reduce for ever: an automaton on whose tables an input of one token never ends. |
| `LemonEnds.LoopingIsLabelled` | TokenCheck/lighttpd/src/lemon.c:979-1033 | That automaton carries LR items, and its grammar has the cycle; the reduction by the rule of the cycle has won over the one by the start rule. |
| `LemonSets.SetAdd` | TokenCheck/lighttpd/src/lemon.c:3688-3696 | Adds the element and tells whether it is new. |
| `LemonSets.SetUnion` | TokenCheck/lighttpd/src/lemon.c:3699-3713 | Adds all elements of the second set, which may be the first one, and tells whether anything changed. |
| `LemonFollow.FindFollowSets` | TokenCheck/lighttpd/src/lemon.c:858-889 | On termination a terminal is in the follow set of a configuration if and only if a path of forward links brings it from a set that held it at the start; the skipping of complete configurations loses nothing. |
| `LemonFollow.Propagate` | TokenCheck/lighttpd/src/lemon.c:877-885 | Passing a set on along all links of a configuration keeps what is known of all sets and strictly shrinks what is absent whenever it reports a change. |
| `LemonFollow.Sweep` | TokenCheck/lighttpd/src/lemon.c:874-887 | A sweep without a change leaves every configuration complete. |
| `LemonFollow.Exact` | TokenCheck/lighttpd/src/lemon.c:858-889 | Sets that hold only what paths bring, and have all been passed on, hold exactly what paths bring. |
| `Derivations.VanishingIsClosed` | TokenCheck/lighttpd/src/lemon.c:627-640 | Whatever sentential form derives the empty string consists of symbols in any set closed under the rules. |
| `Derivations.BeginningIsClosed` | TokenCheck/lighttpd/src/lemon.c:642-661 | Whatever terminal begins a form derived from a given form is hit by any family of sets closed under the scan of the rules. |
| `LemonFirst.FindLambda` | TokenCheck/lighttpd/src/lemon.c:620-640 | A symbol is marked if and only if it derives the empty string. |
| `LemonFirst.ScanRule` | TokenCheck/lighttpd/src/lemon.c:647-659 | The scan of a rule covers everything its left-hand side can begin with through it, with the short cut for a left-recursive symbol, and adds nothing else. |
| `LemonFirst.FindFirstSets` | TokenCheck/lighttpd/src/lemon.c:613-663 | lambda holds exactly for symbols that derive the empty string, and a terminal is in the first set of a nonterminal exactly if it begins some sentential form derived from it. |
| `CondMeaning.MeaningUnderGrowth` | TokenCheck/lighttpd/src/configfile-glue.c:177-440 | As inputs become known, FALSE is final and a decided block never becomes undecided again. |
| `CondMeaning.TrueSurvivesIff` | TokenCheck/lighttpd/src/configfile-glue.c:177-440 | As inputs become known, a block that applies goes on applying if and only if neither it nor an enclosing block has an earlier block on its else-chain whose input is known and whose comparison succeeds. |
| `CondMeaning.GrowthCanOverturnTrue` | TokenCheck/lighttpd/src/configfile-glue.c:442-475 | TRUE is not final: two blocks of a chain in which the later one applies until the input of the earlier one becomes known. |
| `CondMeaning.AlwaysSafeIff` | TokenCheck/lighttpd/src/configfile-glue.c:177-440 | A configuration is safe for all orders of the inputs exactly if every else-chain of an enclosing block starts with tests of inputs of the nesting only. |
| `CondCache.TrustedIffSafe` | TokenCheck/lighttpd/src/configfile-glue.c:442-475 | For every order of the inputs: every answer in every run, with every outcome of the comparisons, with inputs becoming known in that order and blocks being asked for at any time, is the uncached three-valued meaning, if and only if no else-chain of an enclosing block starts with a test of an input that comes after all inputs of the nesting. |
| `CondCache.AlwaysTrustedIff` | TokenCheck/lighttpd/src/configfile-glue.c:442-475 | The same for all orders together. |
| `CondCache.RunIsRight` | TokenCheck/lighttpd/src/configfile.c:298-311 | In every run, for every configuration, each answer is the uncached meaning at that time, but possibly below a block that does not apply; and without exception if the configuration is safe for the order of the inputs. |
| `CondCache.WrongAnswer` | TokenCheck/lighttpd/src/configfile-glue.c:442-475 | For every other configuration and order there are comparisons and a run whose last answer is TRUE for a block that does not apply: the block is asked for, the input in front of an enclosing block becomes known, and the block is asked for again. |
| `CondCache.ServerOrderDecides` | TokenCheck/lighttpd/src/response.c:152-275 | In the order of the server, a chain on the host and then the URL with a block in it is always answered rightly, though not in all orders; a chain on the URL and then the host, with a test of the address in it, is not. |
| `CondCache.QueryIsRight` | TokenCheck/lighttpd/src/configfile-glue.c:442-475 | Between two stages a query for any block, and during a stage a query for any block it has come to, is answered with the uncached meaning, but possibly below a block that does not apply; it keeps the cache fit, with at most one block of an else-chain cached as TRUE, and a cached TRUE is only lost to an earlier block of its chain. |
| `CondCache.EvaluationIsReady` | TokenCheck/lighttpd/src/configfile-glue.c:177-440 | The evaluation through parent and previous block yields a result that can be stored without making the cache wrong. |
| `CondCache.PatchIsRight` | TokenCheck/lighttpd/src/configfile.c:298-311 | When an input becomes known and the blocks that test it are asked in order, whatever was cached, their answers are right in that sense, and afterwards the cache is fit for queries in any order. |
| `CondCache.PatchAsksAll` | TokenCheck/lighttpd/src/configfile.c:304-311 | The blocks asked are those that test the input, the global one aside, and no others. |
| `CondCache.GrowthConsistent` | TokenCheck/lighttpd/src/configfile.c:301 | When an input becomes known, the cache is fit but for the blocks that test it. |
| `CondCache.OneTruePerChain` | TokenCheck/lighttpd/src/configfile-glue.c:446-457 | At most one block of an else-chain applies. |
| `CondCache.EarlierTrueIsMarked` | TokenCheck/lighttpd/src/configfile-glue.c:202-223 | Evaluating the previous block first is enough: once the blocks before are decided as far as they can be, one that applies has marked this one FALSE. |
| `CondConnection.Connection.constructor` | TokenCheck/lighttpd/src/configfile-glue.c:498-506 | An empty cache, where every run starts. |
| `CondConnection.Connection.CheckCached` | TokenCheck/lighttpd/src/configfile-glue.c:442-475 | In place, the cache becomes the one the query leaves, and the answer is its entry. |
| `CondConnection.Connection.CheckNoCache` | TokenCheck/lighttpd/src/configfile-glue.c:177-440 | In place, the evaluation through parent, previous block, known inputs and comparison, in the order of the code. |
| `CondConnection.Connection.StoreResult` | TokenCheck/lighttpd/src/configfile-glue.c:446-458 | Storing a result changes that entry and, for TRUE, marks the rest of the else-chain FALSE, and nothing else. |
| `CondConnection.Connection.Patch` | TokenCheck/lighttpd/src/configfile.c:298-311 | The loop over the blocks leaves the answers and the cache of the operation that makes an input known. |
| `CondConnection.Connection.Reset` | TokenCheck/lighttpd/src/configfile-glue.c:498-506 | After a reset the cache is empty and no input is known, as at the start of a run. |
| `CondConnection.QueryAll` | TokenCheck/lighttpd/src/configfile-glue.c:442-475 | For every set of known inputs and every sequence of queries on an empty cache, each answer is the uncached meaning. |
| `CondConnection.Serve` | TokenCheck/lighttpd/src/response.c:152-275 | The answers of a connection to any sequence of operations are those of the run, so that what is proved of all runs holds of it. |
| `PathSpec.SimplifiedIsFixedPoint` | TokenCheck/lighttpd/src/buffer.c:936-1024 | The segment-stack normaliser yields a path that begins with a slash and that it leaves unchanged. |
| `PathLaws.LawsHold` | TokenCheck/lighttpd/src/buffer.c:936-1024 | The normaliser obeys the laws: an empty segment and "." can be left out anywhere, ".." with the name before it too, ".." at the root has no effect, a missing first slash is supplied, and a path without any of these stays as it is. |
| `PathLaws.LawsDetermine` | TokenCheck/lighttpd/src/buffer.c:936-1024 | Every function with these laws is the normaliser. |
| `PathLaws.SkipsSpaces` | TokenCheck/lighttpd/src/buffer.c:967-969 | The spaces in front of a path are dropped, and nothing else. |
| `PathSimplify.Simplify` | TokenCheck/lighttpd/src/buffer.c:936-1024 | For every text and for two buffers or one, the destination holds the normalised path and its terminator; the stored length is right if and only if the path is not blank, because the early exit counts the terminator twice. |
| `PathSimplify.SimplifyBytes` | TokenCheck/lighttpd/src/buffer.c:967-1021 | The write cursor never passes unread input, so that the loop computes the normalised path even in place. |
| `PathSimplify.EndSegment` | TokenCheck/lighttpd/src/buffer.c:986-1006 | At a slash or the end, the written text becomes the joined stack after the segment under way: dropped, cancelling the one before, or kept. |
| `PathSimplify.Pop` | TokenCheck/lighttpd/src/buffer.c:989-995 | On ".." the write cursor goes back exactly over the last segment kept. |
| `PathSimplify.TokenTests` | TokenCheck/lighttpd/src/buffer.c:987-999 | The tests on the length and on the last two characters in a 16-bit word, with signed characters, recognise ".." and "." exactly. |
| `PathSimplify.ParsedIsSplit` | TokenCheck/lighttpd/src/buffer.c:985-1018 | Reading a text character by character leaves the resolved finished segments and the unfinished one. |
| `Bytes.Buffer.PrepareCopy` | TokenCheck/lighttpd/src/buffer.c:73-90 | Room for the given size, contents dropped. |
| `Bytes.Buffer.PrepareAppend` | TokenCheck/lighttpd/src/buffer.c:99-122 | Room behind the contents, which stay. |
| `Url.Hex2Int` | TokenCheck/lighttpd/src/buffer.c:391-401 | In 8-bit arithmetic: the value of a hexadecimal digit, and 255 for every other byte. |
| `Url.DecodeEncode` | TokenCheck/lighttpd/src/buffer.c:763-915 | Decoding a relative-URI encoding, for paths and queries and with or without the slash encoded, gives the string back with control characters and DEL masked. |
| `Url.RoundTripIff` | TokenCheck/lighttpd/src/buffer.c:763-915 | The round trip is the identity if and only if no byte of the string is masked. |
| `Url.CountEncoded` | TokenCheck/lighttpd/src/buffer.c:802-823 | The counting pass yields the length of the encoding. |
| `Url.WriteEncoded` | TokenCheck/lighttpd/src/buffer.c:827-859 | The writing pass fills exactly the counted bytes with the encoding, inside the buffer. |
| `Url.AppendEncoded` | TokenCheck/lighttpd/src/buffer.c:763-867 | The text of the buffer is followed by the encoding, terminated, with the length stored right. |
| `Url.DecodeInPlace` | TokenCheck/lighttpd/src/buffer.c:884-909 | The write cursor stays behind the read cursor, so that decoding in place equals the functional decoder, for truncated and malformed escapes too. |
| `Url.UrlDecode` | TokenCheck/lighttpd/src/buffer.c:874-915 | The buffer then holds the decoded text, terminated, with the length stored right. |
| `UrlLaws.EncodeSpells` | TokenCheck/lighttpd/src/buffer.c:628-690 | The encoding of a string is the one text that spells it: letters, digits, seventeen marks and, in a whole path, the slash, as they are, every other byte as a percent sign and two lower-case hexadecimal digits. |
| `UrlLaws.EncodingIsSafe` | TokenCheck/lighttpd/src/buffer.c:763-867 | Whatever is encoded, nothing but those characters and escapes goes into the URI. |
| `UrlLaws.UnchangedIff` | TokenCheck/lighttpd/src/buffer.c:802-823 | A string is its own encoding if and only if it has only those characters. |
| `UrlLaws.DecodeReads` | TokenCheck/lighttpd/src/buffer.c:884-909 | The decoder reads an escape, in either case, as the byte it names, control characters and DEL as underscores, in a query a plus as a space, and every other byte as itself. |
| `UrlLaws.RoundTripIs` | TokenCheck/lighttpd/src/buffer.c:763-915 | The round trip is the identity if and only if the string has no byte below 32 and no 127. |
| `CaselessOrder.CaselessCompare` | TokenCheck/lighttpd/src/buffer.c:538-585 | Skipping whole equal words, for aligned strings or not, makes no difference to the character by character comparison. |
| `CaselessOrder.EqualIffFolded` | TokenCheck/lighttpd/src/buffer.c:565-581 | Keys compare as equal exactly if they differ in the case of letters only. |
| `CaselessOrder.CompareDecides` | TokenCheck/lighttpd/src/buffer.c:562-584 | The first place where two keys differ in more than the case of a letter decides: letters of different case compare as small letters, all else by its code; if there is no such place, the shorter key comes first. |
| `CaselessOrder.TransitiveIffOrderly` | TokenCheck/lighttpd/src/buffer.c:568-573 | The comparison of characters is transitive on an alphabet if and only if the alphabet has no character between the cases together with an upper and a lower case letter that it separates against their folded order. |
| `CaselessOrder.CompareChain` | TokenCheck/lighttpd/src/buffer.c:538-585 | Over such an alphabet the comparison of keys is transitive, strictly if one of two steps is strict. |
| `IndexSearch.SearchBounds` | TokenCheck/lighttpd/src/array.c:91-112 | Whatever the order of the keys, the search ends on an equal key or within one place of the index. |
| `IndexSearch.SearchMisses` | TokenCheck/lighttpd/src/array.c:91-112 | A failed search stops at the rank of the key or one place before it. |
| `IndexSearch.SearchHits` | TokenCheck/lighttpd/src/array.c:91-112 | A key that is there is found. |
| `IndexSearch.SearchIsRight` | TokenCheck/lighttpd/src/array.c:84-117 | Over an orderly alphabet the search in an ordered index of at most np2 keys finds exactly the keys that are there, and otherwise stops next to the rank. |
| `SortedIndex.Run` | TokenCheck/lighttpd/src/array.c:150-229 | After any run of insert, replace and reset, with any keys, the index is a permutation of the positions and the search width a power of two no smaller than the number of items. |
| `SortedIndex.StepKeeps` | TokenCheck/lighttpd/src/array.c:150-229 | Each operation keeps that. |
| `SortedIndex.Lookup` | TokenCheck/lighttpd/src/array.c:119-129 | Whatever is found has an equal key. |
| `IndexAgreement.AgreesWithReference` | TokenCheck/lighttpd/src/array.c:84-229 | Over an orderly alphabet, every run leaves the items that a list scanned from the front would hold, in the same order; a lookup finds a key exactly if the scan does; the index is ordered. |
| `IndexAgreement.TrustedIffOrderly` | TokenCheck/lighttpd/src/array.c:84-117 | Lookups agree with the scan after every run over an alphabet if and only if the alphabet is orderly. |
| `IndexAgreement.ClashLosesAKey` | TokenCheck/lighttpd/src/array.c:84-117 | Three characters that clash, as in the keys Z, _ and a, are enough for a run after which a stored key is not found. |
| `ArrayStore.Array.GetIndex` | TokenCheck/lighttpd/src/array.c:84-117 | The loop yields the position found by the search, or -1, and where it stopped. |
| `ArrayStore.Array.GetElement` | TokenCheck/lighttpd/src/array.c:119-129 | The item found by the search, if any. |
| `ArrayStore.Array.InsertUnique` | TokenCheck/lighttpd/src/array.c:163-229 | In place, with growth by 16, shift of the index and doubling of the search width, the array becomes the dictionary after the insertion; -1 exactly when it is full. |
| `ArrayStore.Array.ReplaceItem` | TokenCheck/lighttpd/src/array.c:150-161 | The array becomes the dictionary after the replacement, and the item replaced is returned. |
| `ArrayStore.Array.ResetAll` | TokenCheck/lighttpd/src/array.c:59-70 | The array becomes empty and keeps its search width. |
| `LittleEndian.Encode` | TokenCheck/lighttpd/src/md5.c:296-309 | The bytes of the words, least significant first, and nothing behind them is touched. |
| `LittleEndian.Decode` | TokenCheck/lighttpd/src/md5.c:314-324 | The words whose encoding the bytes are. |
| `LittleEndian.EncodedInjective` | TokenCheck/lighttpd/src/md5.c:296-324 | Encoding loses nothing, so that decoding gives the words back. |
| `Md5.Context.constructor` | TokenCheck/lighttpd/src/md5.c:113-123 | The initial context has taken in the empty message. |
| `Md5.Context.Update` | TokenCheck/lighttpd/src/md5.c:129-167 | A context that has taken in m takes in m + input: the state is the fold of the transform over the full blocks, the buffer holds the rest, the two words count the bits modulo 2^64. |
| `Md5.Context.Final` | TokenCheck/lighttpd/src/md5.c:172-197 | The digest is that of the message padded as sections 3.1 and 3.2 of RFC 1321 say, whatever its length, and the context is wiped. |
| `Md5.DigestOfParts` | TokenCheck/lighttpd/src/md5.c:113-197 | However a message is cut into updates, the digest is that of the whole. |
| `Md5.LoopEndsIff` | TokenCheck/lighttpd/src/md5.c:155-156 | The block loop, which adds in 32 bits, ends if and only if the place in the buffer plus the length stay below 2^32. |
| `Md5.CountsAfter` | TokenCheck/lighttpd/src/md5.c:139-144 | The carry between the two words keeps the bit count modulo 2^64. |
| `Md5.PlaceOf` | TokenCheck/lighttpd/src/md5.c:137 | The low word of the counter gives the place in the buffer. |
| `Md5.InitialBytes` | TokenCheck/lighttpd/src/md5.c:119-122 | The bytes of the initial state are those of section 3.3 of RFC 1321. |
| `Md5.PaddedIs` | TokenCheck/lighttpd/src/md5.c:172-189 | A padded message is the message, a byte 0x80, as few zeros as fill up a block, and the number of bits modulo 2^64 in eight bytes, the least significant first. |
| `CombSort.Sort` | TokenCheck/lighttpd/src/mod_dirlisting.c:387-412 | The sort ends, and leaves a permutation of the entries in which no name comes behind a later one: at the first difference of two names the one in front has the smaller byte, or has ended. |
| `CombSort.AfterIff` | TokenCheck/lighttpd/src/mod_dirlisting.c:403 | The comparison decides at the first difference of the two names. |
| `CombSort.GapFalls` | TokenCheck/lighttpd/src/mod_dirlisting.c:394-398 | The gap falls by a factor of 1.3, rounded down, but never to 9 or 10, until it is 1, and stays 1. |
| `CombSort.Pass` | TokenCheck/lighttpd/src/mod_dirlisting.c:399-409 | A pass permutes the entries; without an exchange all entries a gap apart are in order, and with one at gap 1 there are fewer inversions. |
| `CombSort.SwapRemovesOne` | TokenCheck/lighttpd/src/mod_dirlisting.c:403-408 | Exchanging neighbours out of order removes exactly one inversion. |
| `CombSort.NotAfterIsTransitive` | TokenCheck/lighttpd/src/mod_dirlisting.c:403 | The order of names is transitive. |
| `ChunkQueue.Queue.AppendMem` | TokenCheck/lighttpd/src/chunk.c:229-243 | The bytes to be written are followed by the text; the chunk is a spare one or new, and the lists stay apart. |
| `ChunkQueue.Queue.AppendChunk` | TokenCheck/lighttpd/src/chunk.c:127-138 | The chunk is linked behind the last one. |
| `ChunkQueue.Queue.GetUnusedChunk` | TokenCheck/lighttpd/src/chunk.c:99-114 | The first spare chunk or a new one; the queue itself is unchanged. |
| `ChunkQueue.Queue.RemoveFinished` | TokenCheck/lighttpd/src/chunk.c:367-402 | What is to be written stays the same; afterwards the first chunk has bytes left; at most five chunks are kept as spare. |
| `ChunkQueue.Queue.Lengths` | TokenCheck/lighttpd/src/chunk.c:325-361 | Length minus written is the number of bytes to be written. |
| `ChunkQueue.Queue.Wrote` | TokenCheck/lighttpd/src/network_write.c:61-62 | Sending n bytes of the first chunk drops the first n bytes to be written. |
| `HttpChunk.RoundTripIff` | TokenCheck/lighttpd/src/http_chunk.c:94-121 | For payloads below 2^32 bytes, decoding the body by section 3.6.1 of RFC 2616 yields the concatenated payloads with nothing left over if and only if no payload is empty. |
| `HttpChunk.DecodeBody` | TokenCheck/lighttpd/src/http_chunk.c:94-121 | The decoder stops at the first empty payload, which looks like the end of the body, and leaves the rest. |
| `HttpChunk.LineEnds` | TokenCheck/lighttpd/src/http_chunk.c:94-121 | Lines end in carriage return and line feed, and the body in a zero and two line ends. |
| `HttpChunk.HeaderIsLengthIff` | TokenCheck/lighttpd/src/http_chunk.c:29-45 | The size in front of a chunk is its length if and only if the length is below 2^32, because eight digits are all that is written. |
| `HttpChunk.AppendLen` | TokenCheck/lighttpd/src/http_chunk.c:23-51 | The queue is followed by the digits of the length and a line end. |
| `HttpChunk.AppendMem` | TokenCheck/lighttpd/src/http_chunk.c:94-121 | The queue is followed by the chunk, by the end of the body for len == 0, or by the plain text if the response is not chunked. |
| `HttpChunk.AppendBuffer` | TokenCheck/lighttpd/src/http_chunk.c:74-92 | The same for a buffer; an unused one leaves a size line for 2^64 - 1 cut to eight digits, and no chunk. |
| `HttpChunk.AppendFile` | TokenCheck/lighttpd/src/http_chunk.c:54-72 | The same for a file range; an empty one leaves the size line of 0 and nothing behind it. |
| `HttpChunk.EmptyFileSpoils` | TokenCheck/lighttpd/src/http_chunk.c:61-69 | After an empty file no body decodes, whatever payloads follow. |
| `HttpChunk.SendBody` | TokenCheck/lighttpd/src/http_chunk.c:94-121 | One append for each payload and the empty one leave exactly the body in the queue. |
| `HttpChunk.UnusedBufferSpoils` | TokenCheck/lighttpd/src/http_chunk.c:81-89 | After an unused buffer nothing shorter than 2^32 - 1 bytes decodes as a body. |

## Left out

- HandleVote: a handler is one atomic step, and so are the three assignments at the start of `timeout()`; the test and the update of an entry, which the code does not lock together, are not taken apart. The clearing loop and `switch_controller` are.
- HandleHeartbeat: the time stamps that heartbeats reset are not modelled; timers may fire at any moment instead, which allows every run the clock allows.
- Start: the controller number read from `IdStore` is a parameter, and writing it back is not modelled.
- Admit: every request counts as one visitor; a hardness other than 1 is not modelled, and a request and a tick are atomic.
- Share: rates and quotients are real numbers, so the rounding of `float` is not modelled.
- CaselessCompare: the length difference is an integer, so keys of 2^31 bytes and more, for which the `int` result wraps, are not modelled; aligned words are compared as blocks of eight bytes.
- InsertUnique: keys made up for items without one, the removal of the last item by `array_pop` and the re-use of old items are not modelled; positions are unbounded, so the overflow of `pos` above 2^30 entries is not.
- FindFollowSets: the configurations of all states form one list, and the links are given; building them is not modelled.
- ResolveAll: which actions the state builder collects is a precondition (on one symbol at most one shift, and accept alone); the check for rules that are never reduced is not modelled.
- FindAction: fallback tokens and the YYNOCODE lookahead are not modelled.
- StepParser: one turn of the loop of the generated parser is a function, because whether the loop ends depends on the grammar; error recovery, semantic values and destructors are not modelled.
- OrderJobs: `qsort` is modelled by a sort that leaves some largest-first order.
- Msort: the comparison is a pure function of two nodes.
- CheckNoCache: the comparison of the condition with the request is a parameter; resetting single items of the cache is not modelled.
- Patch: which settings the blocks that apply change is not modelled.
- CyclicCanLoop: one automaton; that every grammar with a cycle has one is not stated.
- Simplify: for a blank path the code also reads one byte behind the terminator and does not use it; the model does not read it. The backslash rule of Cygwin is not modelled.
- AppendEncoded: the encodings for HTML, XML, header lines and plain hexadecimal are not modelled; the input may hold any byte, but the text in front must hold no terminator.
- Update: the block transform is a parameter, and the addresses of input and buffer are apart.
- Sort: `gap * 10` is unbounded, so its overflow above 2^31 / 10 entries is not modelled.
- RemoveFinished: a chunk is its bytes, in memory or in a file; temporary files, `mmap` and prepending are not modelled.
- Decoded: chunk extensions and trailers, which the server never sends, are not decoded.
- Sockets, threads, the clock, log files, HMAC tokens, configuration files and the PHP front end are not modelled.
- The event back ends, plug-ins, HTTP status tables and access logs of lighttpd are not modelled.
- GeneratedParserIsSound: the items of the states are given, because the state construction is not modelled.
- GeneratedParserDecides: the items, the tokens that may follow them and the links of the configurations are given, and there are no conflicts; for grammars whose conflicts precedence decides only soundness is stated.
- LEMON's grammar scanner, state construction, template output and hash tables are not modelled.
