# Verification of the cloud's storage, consensus and wire code

These Dafny modules model the parts of a small decentralized cloud that do not depend on the network and prove
what they are for. `dafny verify dfyconfig.toml` checks everything.

| module | models |
|---|---|
| `ArgvRotation`, `GetoptScan` | the two getopt implementations: one rotates argv along gcd cycles, the other by block swaps; both return the same letters and reorder the same way, over any number of calls |
| `FilterParser`, `SortedSearch`, `QueryEvaluator` | storage queries: lexer, shunting yard, tree building, binary search on sorted fields, evaluation |
| `MerkleDag`, `DocumentIndex`, `DocumentQueries` | the index of documents in a content-addressed store and the DHT, against a plain map of live documents and the meaning of queries |
| `StateUpdateWorkers` | queues of state changes and the threads that drain them, one step per locked section |
| `MasterLedger`, `Lifecycle`, `Quorum`, `BlockHashes` | transactions of a master node, from messages in any order to a chain of blocks: what is stored, queued and answered told from the messages alone, what stands behind a queued transaction, and what a block's hash fixes |
| `Voting` | voting phases, signed timestamps, election, and who produces which block |
| `HashBuffer` | buffering and padding of the hash functions, over any compression function |
| `NulHeader`, `WireFields`, `Reassembly` | packing without NULs, the escaped field format, and fragments arriving in any order |
| `Arithmetic`, `Decimal`, `NumeralLists`, `Sorting`, `Strings` | products and remainders, numerals, lists of numerals, sorting by a number, splitting and joining |

Code that changes state is a class or a loop whose contract equates the new state with a function of the old one;
the theorems are about those functions and their runs. Where the code does less than its documentation or a natural
reading promises, the exact condition is proved, for all inputs or runs:

- numbers in filters: `RoundTripFailsOnNumbers`; refused texts: `PostfixFailsIff`
- binary search and comparisons: `WrapsOnlyBelow`, `FilterIsExact`
- queries over documents that lack a compared field: `QueryMeaning`, `DeleteByQuery`, with the failing inputs
  `AndLosesOne` and `OrDeletesTwice`
- executing each command once, and in order of the timestamps: `ExactlyOnceIff`, `InOrderIff`, `TimelyInOrderIff`,
  with the failing runs `UntimelyRun` and `TimelyOutOfOrder`
- a quorum on one hash: `QuorumIff`, with the failing run `NoticeBetweenResults`
- the signed timestamp: `SignsTheMarkIff`, `OnTheMarkIff`, with the failing run `LateFirstPoll`
- a node alone: `LoneNodeElectsItselfIff` (the comment at MasterNodeLib/MasterNodeLib.cpp:115-116 says that a node
  shall not vote itself in)
- empty fragments: `FirstMessageIsWholeIff`, `MaydayNamesMissing`
- packing and escaping: `DecompressCompress`, `SurvivesIff`

Assumptions, all visible as `requires`: messages that announce one transaction carry one message id, and a node is
asked for a transaction once (`Honest`); the genesis stamp is not in the future (`Timed`); results carry a hash
(`Hashed`); in `BlockHashes`, ids have 32 letters, hashes 40 digits and times ten, and the texts hashed in the two runs
do not collide (`IsRealistic`, `NoCollision`); from the first poll on no open or closed voting interval goes unpolled
(`Watchful`), except where a lemma says otherwise; commands leave the field "id" alone, new identifiers are unused, and
the search of an update or delete stays inside the array and the stacks (`Allowed`): outside them the code's behaviour
is undefined or exhausts the memory.

## Model
| member | source | states |
|---|---|---|
| ArgvRotation.ComputeGcd | shared/wingetopts.h:160-173 | the remainder loop stops at `Gcd(a, b)` and never divides by zero |
| ArgvRotation.GcdDivides | shared/wingetopts.h:160-173 | the result divides both block lengths, with cofactors |
| ArgvRotation.GcdIsGreatest | shared/wingetopts.h:160-173 | every common divisor of the two lengths is at most the result |
| ArgvRotation.WalkIsFresh | shared/wingetopts.h:190-209 | one cycle visits `total / gcd` positions, none of them twice |
| ArgvRotation.WalkCloses | shared/wingetopts.h:190-209 | after `total / gcd` steps a cycle is back at its start |
| ArgvRotation.CyclesAreDisjoint | shared/wingetopts.h:190-209 | two different cycles share no position |
| ArgvRotation.CyclesCover | shared/wingetopts.h:190-209 | the `gcd` cycles together visit every position of the two blocks |
| ArgvRotation.FollowCycle | shared/wingetopts.h:196-208 | the inner loop moves exactly the entries of its cycle to their places and no others |
| ArgvRotation.FollowCycles | shared/wingetopts.h:190-209 | the loop over the starts of the cycles moves exactly the entries of these cycles |
| ArgvRotation.PermuteArgs | shared/wingetopts.h:180-210 | for non-empty adjacent blocks, the option block comes first, then the operand block, each in its old order, the rest of argv as before |
| ArgvRotation.ExchangedIsPermutation | shared/wingetopts.h:175-210 | exchanging two blocks loses and copies no entry |
| ArgvRotation.ExchangeShrinksRight | BlockChainCommon/wingetopts.cpp:80-92 | swapping a shorter bottom block leaves a smaller exchange with the same result |
| ArgvRotation.ExchangeBlocks | BlockChainCommon/wingetopts.cpp:73-105 | the block-swap loop ends with the very vector `PermuteArgs` ends with, for any three bounds |
| GetoptScan.ClassifyIsPermutation | shared/wingetopts.h:457-530 | sorting the entries into options, operands and rest keeps each entry once |
| GetoptScan.WhatIsSkipped | shared/wingetopts.h:457-530 | only operands are skipped; something is left unsorted only behind a "--", which is the last option read |
| GetoptScan.ArrangementIsPermutation | shared/wingetopts.h:457-530 | a finished scan leaves a permutation of the vector it began with |
| GetoptScan.ReachedIsPermutation | shared/wingetopts.h:413-613 | at every point of a scan the vector is a permutation of the one it began with |
| GetoptScan.CallsOfOptions | shared/wingetopts.h:413-613 | what the calls return depends on the option entries and their arguments alone, wherever operands stand between them |
| GetoptScan.MissingStandsLast | shared/wingetopts.h:596-606 | an argument is missing only in the last call, at the last letter of an option that takes the next entry and stands last |
| GetoptScan.BsdScanner.Finish | shared/wingetopts.h:459-475 | ending a scan leaves optind at the skipped operands, in order, followed by what came behind "--" |
| GetoptScan.BsdScanner.EndScan | shared/wingetopts.h:515-529 | "--" ends the scan; what follows it joins the operands unread |
| GetoptScan.BsdScanner.NextEntry | shared/wingetopts.h:457-530 | the update of the scanning pointer keeps the scan's invariant: options read, operands skipped and entries ahead make up the original vector, letters returned and letters ahead those of its options; or it ends the scan with all letters returned |
| GetoptScan.BsdScanner.GetoptInternal | shared/wingetopts.h:413-613 | one call, in any state of any scan: argv stays a permutation, the letter returned is the next one of the scan's options, and -1 comes after the last of them, with the final arrangement |
| GetoptScan.BsdScanner.ScanAll | shared/wingetopts.h:413-613 | calling until -1 terminates; the calls return every letter of every option of the original vector in order, with its argument or the lack of one; argv is the arrangement of the original and optind its first operand |
| GetoptScan.GnuScanner.Exchange | BlockChainCommon/wingetopts.cpp:73-108 | after the exchange the two marks delimit the operands that were moved |
| GetoptScan.GnuScanner.SkipOperands | BlockChainCommon/wingetopts.cpp:147-162 | pending options go before the operands, then operands are passed; invariant kept |
| GetoptScan.GnuScanner.ReadTerminator | BlockChainCommon/wingetopts.cpp:163-172 | "--" leaves the final arrangement and the first-operand mark on the first operand |
| GetoptScan.GnuScanner.GetoptInternal | BlockChainCommon/wingetopts.cpp:130-478 | one call, in any state of any scan: argv stays a permutation, the letter returned is the next one of the scan's options, and -1 comes after the last of them, with the final arrangement |
| GetoptScan.GnuScanner.ScanAll | BlockChainCommon/wingetopts.cpp:130-478 | the same letters, arrangement and optind as the other scanner, from the same start |
| FilterParser.ReadQuoted | StorageNode/StorageNode.cpp:93-101 | the quoted-operand loop takes the text up to and including the next quotation mark, out of range if there is none |
| FilterParser.ReadNumber | StorageNode/StorageNode.cpp:102-109 | the digit loop takes the longest run of digits |
| FilterParser.PopToParen | StorageNode/StorageNode.cpp:113-121 | ")" moves the operators above the last "(" to the output, or reads an empty stack |
| FilterParser.PopTighter | StorageNode/StorageNode.cpp:147-164 | an operator first moves out every operator that binds at least as tightly |
| FilterParser.GetPostfixedExpressionOf | StorageNode/StorageNode.cpp:81-171 | the lexer and shunting-yard loop computes `Postfix`, error cases included, for every text |
| FilterParser.GetExpressionTreeFrom | StorageNode/StorageNode.cpp:174-207 | the stack loop computes `BuildTree`, error cases included, for every postfix list |
| FilterParser.PrecedenceIsLevel | StorageNode/StorageNode.h:41-50 | the precedence table orders the operators as "&#124;" below "&" below comparisons |
| FilterParser.ShuntTokens | StorageNode/StorageNode.cpp:81-171 | shunting the tokens of a printable expression, in any context, outputs its postfix form |
| FilterParser.LexSpelling | StorageNode/StorageNode.cpp:86-170 | every token is read back from the front of its spelling, whatever follows it |
| FilterParser.CompileSpelling | StorageNode/StorageNode.cpp:81-171 | any characters that begin no token, such as white space, between the tokens leave the compiled result unchanged |
| FilterParser.FilterCompiles | StorageNode/StorageNode.cpp:81-207 | every spelling of a printable expression compiles and builds, with no empty stack read |
| FilterParser.PrintIsPrintable | StorageNode/StorageNode.cpp:81-207 | every filter tree over quoted operands has a printing with only the needed parentheses |
| FilterParser.FilterRoundTrip | StorageNode/StorageNode.cpp:81-207 | parsing any such printing, with any characters that begin no token in between, such as white space, and redundant parentheses, gives back the tree |
| FilterParser.RoundTripFailsOnNumbers | StorageNode/StorageNode.cpp:174-207 | the tree comes back exactly if no operand is a number: building trims the ends of numbers too |
| FilterParser.EmptyStackIffUnmatched | StorageNode/StorageNode.cpp:111-168 | for every list of tokens, an empty operator stack is read exactly if some ")" has no matching "(" |
| FilterParser.BuildOutcome | StorageNode/StorageNode.cpp:174-207 | for any list, building a tree throws at an empty element, reads an empty stack at an operator that lacks an operand or of an empty list, and succeeds exactly otherwise |
| FilterParser.CompileIsShunt | StorageNode/StorageNode.cpp:81-171 | for every text, reading it character by character is shunting its tokens, and throwing where it breaks off in one |
| FilterParser.PostfixFailsIff | StorageNode/StorageNode.cpp:81-171 | every text reads an empty stack exactly if some ")" has no matching "(", and throws exactly if it has none and breaks off in a string or a final "<" or ">" |
| SortedSearch.SearchKeepsOccurrences | StorageNode/StorageNode.cpp:255-276 | a hit's interval still holds every occurrence that the searched interval held |
| SortedSearch.WrapsOnlyBelow | StorageNode/StorageNode.cpp:255-276 | an unsigned index wraps exactly if the value lies below the first element |
| SortedSearch.IndicesAreExact | StorageNode/StorageNode.cpp:255-311 | on every sorted column the two indices are the first and the last occurrence, both not found, or both wrapped, each exactly when it should be |
| MerkleDag.RelinkReplaces | StorageNode/StorageNode.cpp:785-787 | removing and adding a link yields the node with that one link replaced |
| QueryEvaluator.SortByIsSorted | StorageNode/StorageNode.cpp:244-252 | sorting orders the documents by the field and keeps each of them; equal ones come in an order left open |
| QueryEvaluator.SearchIndex | StorageNode/StorageNode.cpp:255-276 | the recursive search on the array computes `GetSearchIndex`, and adds null fields exactly where it reads a missing one |
| QueryEvaluator.GetLowerIndex | StorageNode/StorageNode.cpp:279-294 | the repeated search to the left terminates with `LowerIndex`, and with the fields it has added |
| QueryEvaluator.GetUpperIndex | StorageNode/StorageNode.cpp:297-311 | the repeated search to the right terminates with `UpperIndex`, and with the fields it has added |
| QueryEvaluator.FilterBothEnds | StorageNode/StorageNode.cpp:345-416 | the loops of "=" and "<>" compute `Filter` on the array, null fields added included |
| QueryEvaluator.FilterLess | StorageNode/StorageNode.cpp:362-370 | the loop of "<" computes `Filter` |
| QueryEvaluator.FilterUpper | StorageNode/StorageNode.cpp:373-403 | the loops of "<=", ">=" and ">" compute `Filter` |
| QueryEvaluator.FilterIsExact | StorageNode/StorageNode.cpp:345-416 | for each operator, the filter selects what the operator means if and only if a condition on the column holds, a missing field being below every string; it leaves the array exactly if the value is below all |
| QueryEvaluator.OrderDoesNotMatter | StorageNode/StorageNode.cpp:244-416 | the exact condition and the meaning do not depend on the order of the documents |
| QueryEvaluator.ComparisonMeaning | StorageNode/StorageNode.cpp:460-560 | a comparison on an unindexed field selects what it means under the same exact condition, in whatever order the documents come |
| QueryEvaluator.QueryMeaning | StorageNode/StorageNode.cpp:460-629 | a tree of "&" and "&#124;" over comparisons that are right by themselves returns exactly the documents that satisfy the formula, up to fields read as null, if and only if no "&" loses a document that its sides list in different forms |
| QueryEvaluator.CompleteDocuments | StorageNode/StorageNode.cpp:460-629 | nothing is lost or listed in two forms if the documents that satisfy the formula have the fields compared |
| QueryEvaluator.LostAndDoubled | StorageNode/StorageNode.cpp:313-342 | the condition is needed: two right comparisons whose "&" loses a document that lacks the fields, and whose "&#124;" lists it in two forms |
| QueryEvaluator.ListsAsLeft | StorageNode/StorageNode.cpp:405-416 | what a comparison lists: exactly the documents that satisfy it, each with the null fields its searches add |
| QueryEvaluator.VersionsAreVersions | StorageNode/StorageNode.cpp:460-629 | a tree lists only documents that satisfy its formula, each as itself with compared fields added as null |
| QueryEvaluator.EvaluateLists | StorageNode/StorageNode.cpp:460-629 | what a tree over exact comparisons lists: of each document the forms its searches leave, united at "&#124;" and intersected at "&" |
| DocumentIndex.Storage.RelinkDocument | StorageNode/StorageNode.cpp:770-792 | the patches below one index replace, add or remove the document's link, or throw |
| DocumentIndex.Storage.PatchIndexes | StorageNode/StorageNode.cpp:758-819 | the loop patches each index the document has a field for, in any order, and says which it had patched when it throws |
| DocumentIndex.Storage.CreateOrDeleteDocument | StorageNode/StorageNode.cpp:722-821 | the DHT after one create, update or delete, also after one that throws midway |
| DocumentIndex.Storage.ProcessDocuments | StorageNode/StorageNode.cpp:703-716 | every document found by the search is rewritten or deleted in turn, up to one that throws |
| DocumentIndex.Storage.AddTemplate | StorageNode/StorageNode.cpp:882-897 | the new entity root holds the "id" index with one empty collection |
| DocumentIndex.OperationRefines | StorageNode/StorageNode.cpp:722-821 | if index and DHT represent the live documents, they do so after any create, update or delete, and nothing else changes |
| DocumentIndex.DeleteAgain | StorageNode/StorageNode.cpp:722-821 | deleting an absent document throws and changes nothing that can be seen |
| DocumentIndex.ProcessingRefines | StorageNode/StorageNode.cpp:688-719 | rewriting or deleting the documents found does the same to the map of live documents, up to one deleted twice |
| DocumentIndex.SearchSelects | StorageNode/StorageNode.cpp:473-629 | a search yields live documents only, each in some version |
| DocumentIndex.BulkRefines | StorageNode/StorageNode.cpp:688-719 | an update or delete by query does to the index what it does to the plain map |
| DocumentIndex.CommandRefines | StorageNode/StorageNode.cpp:688-897 | every command keeps all entities' indexes in agreement with the plain maps |
| DocumentIndex.HistoryRefines | StorageNode/StorageNode.cpp:688-897 | after any history of commands the index and the DHT agree with the plain map of live documents, each under its latest content |
| DocumentIndex.HistoryFromNothing | StorageNode/StorageNode.cpp:688-897 | in particular from the empty DHT: an entity has a root exactly if a template was added, and the root represents its live documents |
| DocumentQueries.FindById | StorageNode/StorageNode.cpp:473-487 | "id" = "x", however spaced or parenthesised, finds exactly the live document x |
| DocumentQueries.IdFindsByEqualsOnly | StorageNode/StorageNode.cpp:473-620 | comparing "id" in any other way never finds a document: it compares with the name of the collection's link, and yields the marker, nothing, or an exception, exactly when said |
| DocumentQueries.FollowsOnlyLink | StorageNode/StorageNode.cpp:473-620 | the same for any index with one link to no document |
| DocumentQueries.SearchLists | StorageNode/StorageNode.cpp:435-457 | every spelling of a query over exact comparisons lists exactly the versions of the live documents, none repeated |
| DocumentQueries.SearchAnswers | StorageNode/StorageNode.cpp:435-457 | every spelling of a query finds exactly the live documents that satisfy its formula if and only if none is lost; none is if they have the fields compared |
| DocumentQueries.AndLosesOne | StorageNode/StorageNode.cpp:623-627 | the failing input: every printing of "a"<>"x" & "b"<>"y" misses a document that satisfies it but has neither field |
| DocumentQueries.UpdateByQuery | StorageNode/StorageNode.cpp:688-719 | an update by a printed query changes exactly the live documents it lists, which satisfy the formula, and all that do if none is lost |
| DocumentQueries.SearchOnce | StorageNode/StorageNode.cpp:435-629 | a search lists no version of a document twice |
| DocumentQueries.DeleteByQuery | StorageNode/StorageNode.cpp:688-719 | a delete by a printed query succeeds if and only if the query lists no document in two forms; it removes exactly the documents that satisfy the formula if and only if it loses none either |
| DocumentQueries.OrDeletesTwice | StorageNode/StorageNode.cpp:710-716 | the failing input: a delete by "a"<>"x" &#124; "b"<>"y" throws at the second version of a document that has neither field |
| StateUpdateWorkers.OneWorkerIsKept | StorageNode/StorageNode.cpp:1049-1193 | every locked section keeps: a key is in stateChangeQueueMap exactly while one worker for it is live |
| StateUpdateWorkers.WorkerLeavesEmptyQueue | StorageNode/StorageNode.cpp:1161-1179 | a worker ends only with its queue empty and takes its key out of the table |
| StateUpdateWorkers.NothingIsLost | StorageNode/StorageNode.cpp:1049-1193 | for every key, the commands enqueued are those popped and those waiting |
| StateUpdateWorkers.RunKeepsInv | StorageNode/StorageNode.cpp:1049-1193 | in every interleaving: one live worker per key, nothing lost, what is executed still queued, each execution of the earliest waiting command, and each pop for one execution |
| StateUpdateWorkers.PopIsPossible | StorageNode/StorageNode.cpp:1161-1191 | in every state of every interleaving, the pop after an execution finds its queue not empty |
| StateUpdateWorkers.OutOfOrderIsLate | StorageNode/StorageNode.cpp:1161-1190 | an execution with a smaller timestamp than an earlier one of its key is of a command pushed after that one had begun |
| StateUpdateWorkers.InOrderIff | StorageNode/StorageNode.cpp:1049-1193 | in every interleaving, a key's executions follow the timestamps if and only if no executed command was pushed after the beginning of an execution with a greater timestamp |
| StateUpdateWorkers.TimelyExecutesOnce | StorageNode/StorageNode.cpp:1049-1193 | as long as no command is pushed earlier than the one of its key being executed, none has begun more often than it was enqueued |
| StateUpdateWorkers.ExactlyOnceIff | StorageNode/StorageNode.cpp:1049-1193 | in every interleaving with distinct commands for a key that has left the table, each was executed exactly once if and only if no command was pushed while a later one of the key was being executed |
| StateUpdateWorkers.UntimelyRun | StorageNode/StorageNode.cpp:1186-1191 | otherwise: a run in which one command is popped unexecuted and another executed twice |
| StateUpdateWorkers.TimelyInOrderIff | StorageNode/StorageNode.cpp:1049-1193 | in timely runs a drained key's executions follow the timestamps if and only if no command was pushed after a later one had begun |
| StateUpdateWorkers.TimelyOutOfOrder | StorageNode/StorageNode.cpp:1161-1190 | timeliness alone does not order executions: a timely run that executes timestamp 5 before 3 |
| StateUpdateWorkers.StateQueues.OnStateChange | StorageNode/StorageNode.cpp:1049-1082 | the locked section pushes to the key's queue, or makes queue and worker, as one step of the protocol |
| StateUpdateWorkers.StateQueues.StartWorker | StorageNode/StorageNode.cpp:1149-1160 | a starting worker takes the table's queue for its key |
| StateUpdateWorkers.StateQueues.PollQueue | StorageNode/StorageNode.cpp:1161-1179 | the worker takes the top of its queue, waits, or leaves and erases its key |
| StateUpdateWorkers.StateQueues.PopQueue | StorageNode/StorageNode.cpp:1186-1191 | the section after an execution pops the top of the worker's queue |
| HashBuffer.AbsorbTwice | shared/nettle/macros.h:181-216 | two updates leave block, counter and remainder of one update with both texts |
| HashBuffer.ChunkingIndependence | shared/nettle/macros.h:181-216 | for any compression function, every way of chunking a message gives the digest of one update |
| HashBuffer.CompressIsFold | shared/nettle/macros.h:181-216 | the state is the compression function folded over the message's full blocks, the counter their number, the remainder what is left |
| HashBuffer.Context.MdUpdate | shared/nettle/macros.h:181-216 | the macro's three copies change the context as absorbing the data does |
| HashBuffer.Context.MdPad | shared/nettle/macros.h:221-243 | the macro leaves 0x80 and zeros up to the length field, compressing one block more if they do not fit |
| HashBuffer.FewestZeros | shared/nettle/macros.h:221-243 | the number of zeros is the least that leaves exactly the length field free in a block |
| HashBuffer.PadIsAbsorb | shared/nettle/macros.h:221-243 | padding equals absorbing 0x80 and those zeros |
| HashBuffer.PadIsRight | shared/nettle/macros.h:218-243 | after any message the padded blocks are message, 0x80 and the fewest zeros (section 3.1 of RFC 1321) |
| HashBuffer.HashUpToLength | shared/nettle/macros.h:177-243 | updates in any chunks and the padding: state, tail and block count are those of the padded message |
| HashBuffer.MdIncrCounts | shared/nettle/macros.h:177-179 | the two 64-bit words count one up modulo 2^128 |
| HashBuffer.IncrementedAddsOne | shared/nettle/macros.h:159-166 | incrementing a big-endian counter adds one modulo its range |
| HashBuffer.Increment | shared/nettle/macros.h:159-166 | the carry loop on the byte array computes the incremented counter |
| MasterLedger.RunKeepsOnce | MasterNodeLib/MasterNodeLib.cpp:302-489 | over every run of requests, results, notifications, cleanups and closes, no transaction is queued twice or answered twice, even when forgotten and recreated |
| MasterLedger.HeardOrProcessed | BlockChainCommon/functions.cpp:426-455 | a transaction is known in full only if an event announced it, and every message not dropped for its sender is remembered |
| Lifecycle.ProcessedIff | BlockChainCommon/functions.cpp:426-455 | a message id is remembered if and only if a message with it was delivered that is not the node's own |
| Lifecycle.RunTells | MasterNodeLib/MasterNodeLib.cpp:229-489 | in every run, the node stores a transaction exactly while events told of it and no cleanup found it more than a minute old, and every field of it follows from these events: time, hash in force, latest output, body, results counted, flags |
| Lifecycle.ServedOnCompletion | MasterNodeLib/MasterNodeLib.cpp:441-470 | in every run, the event that completes the story, with full content, an output and 14 counted results since the transaction became known, has it queued once, as it is stored, and answered with the latest output exactly if the story began with a request to this node |
| Lifecycle.NothingElseServed | MasterNodeLib/MasterNodeLib.cpp:441-470 | an event that completes no story has nothing queued and nobody answered |
| Lifecycle.CompleteIsServed | MasterNodeLib/MasterNodeLib.cpp:441-470 | a stored transaction with full content, an output and 14 counted results has been queued, and answered if it is this node's |
| Lifecycle.RunKeepsEntries | MasterNodeLib/MasterNodeLib.cpp:166-190 | in every run the transactions queued, each as it stood when its story was complete, are those waiting together with those in blocks, whole and counted, but for the block's number |
| Lifecycle.AgreeingAreCounted | BlockChainCommon/transaction.cpp:149-163 | where all messages report one hash, no result goes uncounted |
| Quorum.NoticeBetweenResults | BlockChainCommon/transaction.cpp:149-163 | the guard is needed: a notification after 13 results with one hash, and one result with another, queue a transaction for which no hash has 14 messages |
| Quorum.VotesAreProcessed | BlockChainCommon/functions.cpp:446-455 | a message counts once, however often it is delivered |
| Quorum.RunTallies | BlockChainCommon/transaction.cpp:149-163 | in every run: the results counted for a transaction agree before its notification and after it, and their number is its count |
| Quorum.CountedAreVotes | BlockChainCommon/functions.cpp:446-455 | each counted result is a message of its own |
| Quorum.NoticeReplaces | MasterNodeLib/MasterNodeLib.cpp:302-324 | at the notification, the results counted so far have reported the hash that it replaces |
| Quorum.NextCountedMatches | BlockChainCommon/transaction.cpp:149-163 | after it, the next result is counted only if it reports the notification's hash, when that is not empty |
| Quorum.QuorumIff | MasterNodeLib/MasterNodeLib.cpp:424-470 | at the moment a transaction is queued: 14 of the results counted report one hash if and only if the notification found none, was followed by none, or replaced the hash of the next one counted, or one side has 14 by itself |
| Quorum.QuorumOfMessages | MasterNodeLib/MasterNodeLib.cpp:424-470 | under that guard, at least 14 messages with different ids report one hash for every transaction queued |
| MasterLedger.RunServes | MasterNodeLib/MasterNodeLib.cpp:441-470 | in every run a stored verified transaction has been queued, and answered by the node that took the request; queue and blocks hold verified transactions only |
| MasterLedger.RunConserves | MasterNodeLib/MasterNodeLib.cpp:166-190 | in every run the ids queued are those waiting together with those in blocks, counted |
| MasterLedger.EachInOnePlace | MasterNodeLib/MasterNodeLib.cpp:166-190 | every queued transaction is in queueOut or in exactly one built block, once |
| MasterLedger.CloseTakesTheDue | MasterNodeLib/MasterNodeLib.cpp:175-190 | however equal times are arranged, a block's transactions are time-sorted and due, and what stays queued is not due |
| MasterLedger.RunChains | MasterNodeLib/BlockUtil.cpp:5-56 | over every run: one block per close, consecutive numbers, previousHash naming the block before, hash over number, previous hash, time and ids |
| MasterLedger.NumberCountsSeconds | MasterNodeLib/BlockUtil.cpp:5-21 | with closes a second apart a block's number is at most its time minus genesis, equal exactly if no second was skipped |
| BlockHashes.HashCoversEach | MasterNodeLib/BlockUtil.cpp:31-37 | the text hashed is number, previous hash and time, and every transaction appends its id |
| BlockHashes.TimesDiffer | MasterNodeLib/BlockUtil.cpp:36 | different times are written differently |
| BlockHashes.SameHashSameBlock | MasterNodeLib/BlockUtil.cpp:31-56 | two blocks of one number and one hash agree in previous hash, time and ids, unless the hash function collides on them |
| BlockHashes.SameChain | MasterNodeLib/BlockUtil.cpp:31-56 | if in any two runs there is no such collision, a block of one number and one hash means the same block and the same blocks before it, as far back as both go |
| MasterLedger.MasterNode.ProcessCodePacket | MasterNodeLib/MasterNodeLib.cpp:229-247 | stores the new transaction unless the id is taken |
| MasterLedger.MasterNode.CheckTransaction | MasterNodeLib/MasterNodeLib.cpp:441-470 | the check's effect on flags, queue and answer; what they amount to is `Lifecycle.ServedOnCompletion` |
| MasterLedger.MasterNode.RecordResult | MasterNodeLib/MasterNodeLib.cpp:424-439 | verifyTransaction: creates, updates and checks the transaction |
| MasterLedger.MasterNode.ProcessIncomingTransaction | MasterNodeLib/MasterNodeLib.cpp:302-324 | creates or fills in the transaction and checks it |
| MasterLedger.MasterNode.ProcessIncomingData | BlockChainCommon/functions.cpp:418-470 | own and repeated messages change nothing; others are handled once |
| MasterLedger.MasterNode.CleanupTransactionsMap | MasterNodeLib/MasterNodeLib.cpp:472-489 | the erasing loop keeps exactly the transactions of the last minute |
| MasterLedger.MasterNode.SortQueue | MasterNodeLib/MasterNodeLib.cpp:162-176 | the queue becomes one of its arrangements by time |
| MasterLedger.MasterNode.DrainQueue | MasterNodeLib/MasterNodeLib.cpp:175-190 | the loop takes the due prefix of the sorted queue and leaves the rest |
| MasterLedger.MasterNode.TimeToCloseBlock | MasterNodeLib/MasterNodeLib.cpp:166-214 | closing a block changes the node as the `Closed` step of a run |
| MasterLedger.MasterNode.GetNextBlockNumber | MasterNodeLib/BlockUtil.cpp:5-21 | the number handed out and the counter after it |
| MasterLedger.MasterNode.CalculateBlockHash | MasterNodeLib/BlockUtil.cpp:31-37 | the loop appends the ids and hashes the text that `BlockHashes.HashCoversEach` describes |
| MasterLedger.MasterNode.GetBlock | MasterNodeLib/BlockUtil.cpp:39-56 | the block built, with its number in every transaction, and the chain state after it |
| Voting.SignsEveryMark | MasterNodeLib/MasterNodeLib.cpp:81-112 | a node whose loop misses no interval from its first poll on votes in every hour from then on, but for the first voting if it was booted in voting time, and signs each hour's mark less the hours from the boot to the first poll |
| Voting.OnTheMarkIff | MasterNode/main.cpp:11-201 | each of its votes is on the mark of its hour if and only if the first poll came in the hour in which it was booted |
| Voting.LateFirstPoll | MasterNode/main.cpp:11-201 | the failing run: booted in voting time and polling from the next hour on, a node sits a round out and then signs the hour before |
| Voting.NodesAgree | MasterNodeLib/MasterNodeLib.cpp:81-112 | of any two such nodes' votes, the signed texts agree if and only if they were cast in the same hour, each counted less the hours from its node's boot to its first poll |
| Voting.NextCountsPhases | MasterNodeLib/MasterNodeLib.cpp:409-418 | in every reachable state, watchful or not, the next timestamp is the boot hour's mark plus an hour per closed phase, and 3300 modulo 3600 |
| Voting.SignsTheMarkIff | MasterNodeLib/MasterNodeLib.cpp:87-112 | a vote carries the right timestamp if and only if one phase was closed per hour since booting |
| Voting.ElectsTheLowest | MasterNodeLib/MasterNodeLib.cpp:117-129 | the elected are sorted, valid, 21 at most, and no valid voter left over has a smaller number |
| Voting.SameElection | MasterNodeLib/MasterNodeLib.cpp:117-129 | with distinct numbers every arrival order of the same votes elects the same list |
| Voting.CloseElects | MasterNodeLib/MasterNodeLib.cpp:105-131 | in every run, a poll that closes a phase with two votes or more elects from them valid voters in order, 21 at most, with no better one left over, and drops them; fewer elect nobody and are kept |
| Voting.PhasesTurn | MasterNodeLib/MasterNodeLib.cpp:87-162 | in every run: a phase is open from the first poll in voting time to the first one behind it, its beginning casts one vote unless the node sits out, and only its end changes the producers |
| Voting.NodesElectTheSame | MasterNodeLib/MasterNodeLib.cpp:105-131 | two nodes that close a phase holding the same votes, with distinct numbers, elect the same list |
| Voting.RunHoldsVotes | MasterNodeLib/MasterNodeLib.cpp:87-298 | in every run: each vote held is the node's own or came rightly signed while it took part, since the last election; the sender of every such message has a vote held, and no other key has two |
| Voting.CharSumAddsUp | MasterNodeLib/MasterNodeLib.cpp:94-97 | each character adds its code to the number of a vote, wherever it stands |
| Voting.TurnsInOrder | MasterNodeLib/MasterNodeLib.cpp:62-66 | the hour begins with the first producer, and every second brings the next |
| Voting.EachProducerOnce | MasterNodeLib/MasterNodeLib.cpp:62-72 | within an hour any n consecutive seconds give each of n producers exactly one slot |
| Voting.VotingNode.GetBlockProducerFor | MasterNodeLib/MasterNodeLib.cpp:62-66 | the position of the producer due, -1 if there is none |
| Voting.LoneNodeElectsItselfIff | MasterNodeLib/MasterNodeLib.cpp:105-131 | in every run without accepted votes of others, a round that closes elects the node's last two votes if it has cast an even, positive number of them, and nobody otherwise |
| Voting.LoneNodeByTheClock | MasterNodeLib/MasterNodeLib.cpp:105-131 | if its loop misses no interval, the clock alone decides: the parity of the votes due since the first poll |
| Voting.TakeProducers | MasterNodeLib/MasterNodeLib.cpp:121-129 | the loop takes the first 21 valid voters |
| Voting.VotingNode.constructor | MasterNode/main.cpp:11-201 | the state at start-up, where one reading of the clock serves the timestamp and the voting-time check |
| Voting.VotingNode.InitializeNextVotingTimestamp | MasterNodeLib/MasterNodeLib.cpp:409-412 | the text printed is the decimal of the hour's mark |
| Voting.VotingNode.UpdateNextVotingTimestamp | MasterNodeLib/MasterNodeLib.cpp:414-418 | parsing and printing the text moves it by one hour |
| Voting.VotingNode.NumberOf | MasterNodeLib/MasterNodeLib.cpp:94-97 | the 32-bit sum is the sum of the characters modulo 2^32 |
| Voting.VotingNode.Elect | MasterNodeLib/MasterNodeLib.cpp:112-131 | fewer than two votes elect nobody and are kept; otherwise the lowest are elected and all votes dropped |
| Voting.VotingNode.EnterAndExitVotingPhase | MasterNodeLib/MasterNodeLib.cpp:87-162 | one poll changes the node as the `Polled` step of a run |
| Voting.VotingNode.RegisterVote | MasterNodeLib/MasterNodeLib.cpp:258-298 | a vote is added unless the round is ignored, the key has voted, or the signature is wrong |
| NulHeader.StripNuls | BlockChainCommon/functions.cpp:759-774 | the erasing loop yields the text without NULs and the list of their original positions |
| NulHeader.PackNuls | BlockChainCommon/functions.cpp:759-774 | the packet is `Pack` of the text: the positions of its NULs, an underscore, and the text without them |
| NulHeader.UnpackNuls | BlockChainCommon/functions.cpp:778-796 | splitting, rejoining and inserting compute `Unpack`, with the cases that throw or are undefined |
| NulHeader.StoiOfString | BlockChainCommon/functions.cpp:795 | std::stoi reads back every position that std::to_string printed, up to the int limit |
| NulHeader.StoiReads | BlockChainCommon/functions.cpp:795 | std::stoi on any text: white space, a sign or none, digits and anything behind them yield the number within the int limits; without digits it throws |
| NulHeader.InsertRestores | BlockChainCommon/functions.cpp:794-796 | inserting the first k positions restores the text as far as position k |
| NulHeader.UnpackPack | BlockChainCommon/functions.cpp:759-796 | unpacking gives back every text with a NUL, underscores and commas included; for a text without one it throws |
| NulHeader.DecompressCompress | BlockChainCommon/functions.cpp:750-803 | decompressing a compressed text gives it back if and only if it holds no NUL and its compressed form holds one |
| Strings.RemoveNullTerminators | BlockChainCommon/functions.cpp:805-816 | erasing in place leaves the text without its NULs |
| WireFields.UnescapeEscape | BlockChainCommon/functions.cpp:33-34 | unescaping an escaped value decodes what the value itself held of the codes, nothing more |
| WireFields.SurvivesIff | BlockChainCommon/functions.cpp:289-290 | a value comes through unchanged if and only if it holds no NUL and neither %3A nor %7C |
| WireFields.Gossip | BlockChainCommon/functions.cpp:230-296 | the message of both gossip functions, and the error for reserved keys |
| WireFields.GetFieldsAndValues | BlockChainCommon/functions.cpp:23-40 | the loop computes `FieldsOf`: first of equal keys wins, a piece without colon throws |
| WireFields.ReadMessage | BlockChainCommon/functions.cpp:23-40 | the reader of a message finds the map of its fields |
| WireFields.MessageRoundTrip | BlockChainCommon/functions.cpp:23-296 | for entries in any order and any values: every key is found with its value's codes decoded and NULs gone, the appended fields too, and a caller's own "tm" wins |
| WireFields.EntrySurvivesIff | BlockChainCommon/functions.cpp:23-296 | an entry comes back unchanged if and only if its value has no NUL and neither code |
| Reassembly.RunIsFaithful | BlockChainCommon/IncomingMessage.cpp:20-45 | in every run each slot holds what arrived first for it, and the count is the number of filled slots and of empty fragments accepted |
| Reassembly.CompletesWithTheLast | BlockChainCommon/IncomingMessage.cpp:20-45 | if no empty fragment was accepted, an arrival yields the message exactly if it fills the last missing slot, and the message is the payloads in index order |
| Reassembly.CompletesOnce | BlockChainCommon/IncomingMessage.cpp:20-45 | then no two arrivals of a run yield the message |
| Reassembly.FirstMessageIsWholeIff | BlockChainCommon/IncomingMessage.cpp:20-45 | in every run, the first message yielded is whole, and the only one whatever comes, if and only if no empty fragment has been accepted |
| Reassembly.EmptyFragmentCompletes | BlockChainCommon/IncomingMessage.cpp:23-32 | an empty fragment that comes twice completes a message of nothing |
| Reassembly.MaydayNamesMissing | BlockChainCommon/IncomingMessage.cpp:52-78 | in every run the packet lists the empty slots; isMissing holds exactly if there are more of them than empty fragments accepted |
| Reassembly.TextComesBack | BlockChainCommon/IncomingMessage.cpp:20-45 | a text cut into any pieces, sent behind headers without colon in any order with repetitions and stray indices: the arrival after which every piece is there yields the text, every other arrival nothing |
| Reassembly.MaydaysCount | BlockChainCommon/IncomingMessage.cpp:20-64 | in every run the maydays counted are the requests granted since the last fragment taken; for k of them the wait is 1000 * (1 + k * (k + 1) / 2), and the next request is granted exactly if it comes no sooner |
| Reassembly.IncomingMessage.Add | BlockChainCommon/IncomingMessage.cpp:20-45 | slots, counters, timer and result of one arrival |
| Reassembly.IncomingMessage.CanSendMayday | BlockChainCommon/IncomingMessage.cpp:56-64 | a mayday is granted once the wait has passed, and lengthens it |
| Reassembly.IncomingMessage.GetMaydayPacket | BlockChainCommon/IncomingMessage.cpp:66-78 | the loop lists the indices of the empty slots |

## Left out
- Network, DHT client, IPFS, web sockets, threads, sleeps and clocks: times, random identifiers, DHT answers and elapsed times are parameters; the DHT is a map where the last write wins, under structured keys.
- The content-addressed store: a hash is the immutable object itself, so equal content has equal hashes and no two contents share one.
- Signature texts with characters beyond ASCII: they are base64 texts, whose characters add their codes to a vote's number.
- Signatures, certificates, base64 and zlib: signing, hashing, deflating and inflating are unspecified functions; a registered vote says whether its signature was right.
- Transactions are values: the C++ map and vectors hold copies, so updating an entry in place is a map update.
- Ties of std::sort: blocks and queries take an order of equal elements that is left open, in queries one for each array and field; elections keep one order, and `ElectsTheLowest` and `SameElection` hold for every one.
- The iteration order of std::set and of unordered maps: loops over them take elements in any order, and documents of a query are listed in an order left open.
- Trees with a comparison that is wrong by itself: they may come out right by accident, and `QueryMeaning` says nothing of them. Comparisons of indexes other than "=" are evaluated as the code does: they compare with the collection's name, have no meaning as queries, and find nothing (`IdFindsByEqualsOnly`).
- Searches that read an empty operator stack or leave the array: the first is undefined, the second makes the JSON array grow to some 2^31 entries; both are `Unspecified` and excluded by `Allowed`, exactly when `PostfixFailsIff` and `FilterIsExact` say so.
- Indexes without a "__" collection and secondary indexes other than "id": no code creates them.
- getopt's long options, error messages, and a lone "-" inside an option cluster: an entry is an operand, an option taking one or two entries, or "--".
- The exception command and the verification of blocks: the first bypasses the queued-once flag, the second only checks signatures.
- The drop of messages older than the node's start, and messages over web sockets.
- Handler threads that refresh the cached timestamp while a node starts up: its next timestamp and its voting-time check go by the reading at MasterNode/main.cpp:11.
- Sending: the node keys chosen, what is gossiped and to whom, subscribing and unsubscribing, and the bounded map of recent blocks.
- The duplicate-vote check that registerVote repeats after verifying a signature: a vote is one step.
- Integer limits other than those of the binary search, std::stoi, vote numbers and MD_INCR: counters are unbounded.
- The constructor of IncomingMessage from complete fragments, its getters and its arrival time.
- BlockChainCommon's node lists, accounts, logging and the command line.
