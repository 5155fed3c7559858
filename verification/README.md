# Verified models of the SDK's protocols

This project models the protocols inside the SDK: how a transaction is submitted, confirmed and
verified; how sharders are ranked; how parallel requests are collected; how byte ranges and byte
streams are cut up. The network is an arbitrary sequence of replies, goroutines are steps of a state
machine under any schedule, and hashing, Merkle paths and JSON decoding are uninterpreted functions.
`dafny verify dfyconfig.toml` checks everything.

| file | what it models |
|---|---|
| `NodeRanking.dfy` | the ranked sharder list: sliding windows, weights, in-place remove, search and insert, `Healthy`; creation by `SetNetwork` |
| `BlockChain.dfy` | block headers and the hash link between them |
| `Tally.dfy`, `RoundVote.dfy` | counting votes; the streaming vote for the header of a round |
| `Confirmations.dfy`, `TransactionQuery.dfy` | checking a confirmation; the queries that count replies |
| `NonceCache.dfy`, `SubmitRace.dfy`, `TransactionLife.dfy` | nonces, the race of the miners, and `Verify` as a state machine |
| `Resty.dfy`, `HttpRetry.dfy`, `SharedBody.dfy`, `FromAll.dfy` | the parallel HTTP engine, its retry loop, the request body its goroutines share, and the queries run inside it |
| `AuthorizerFanIn.dfy` | the bridge's authorizer fan-in and the mint payload |
| `ByteRanges.dfy` | the byte-range parser against section 2.1 of RFC 7233 |
| `FilePlayer.dfy`, `Streams.dfy` | block tiling and playback |
| `MemChanFile.dfy`, `Chunking.dfy`, `ChunkMemory.dfy` | chunked writes through a channel, and the memory behind the chunks |
| `Support.dfy`, `Cardinality.dfy` | options, decimal numerals, texts with separators, counting with sets |

Findings, each stated by a lemma:

- an id that `NodeHolder` does not know is listed without entering the table, which breaks the index
  (`IndexKeptIffKnown`); the next report about an unknown id, the same or another one, then dereferences
  nil (`SecondUnknownFails`), which never happens while all listed ids are known (`ListedNeverFails`);
- a success moves a node back only in one case (`SuccessDemotesOnlyAtTop`);
- with no miners, `submitTxn` waits for ever (`NoMinersNoVerdict`); with one it never gets stuck
  (`NeverStuckIff`);
- two miner ids make the hash link ambiguous if and only if one of them is the other one continued by a
  colon and a text that can be read as a previous hash and up to four 64-bit numbers (`LinkIsAmbiguousIff`); a
  colon in an id alone does no harm, and every colon-free continuation does (`ConfusableIdsBreakTheLink`);
- an authorizer URL for which no request can be built blocks the whole query
  (`BadUrlNeverReturns`); without one it always returns (`NeverStuckWithGoodUrls`);
- a 0chain mint payload is assembled from a nil ticket if and only if the quorum is reached and some
  error-free response carries no ticket (`PayloadOfRun`);
- the requests of one `Do` call share the reader of their body. The first attempt of a POST or PUT sends
  what is left in it, every further one what was left when the request was built. All attempts of all runs
  send the whole body if and only if there is at most one URL or no body (`WholeBodyIff`); a URL whose
  request is built after another URL's first attempt has read the body sends nothing, in any attempt
  (`FurtherAttemptsSendTheBodyIff`, `OneFirstAttemptSendsTheBody`);
- the first `Write` after a `Sync` of a `MemChanFile` with a chunk size overwrites the chunk that this Sync sent
  first, if it fits into the old array and nobody has read that chunk (`WriteAfterSyncOverwrites`): of two
  batches written before anything is read the reader gets the second one twice, without any error
  (`SecondBatchTwice`). Whatever the bytes, they all come back if and only if no such overwriting happens
  and no read is short (`ReadBackIff`);
- the sticky `noOverlap` flag lets an open-ended range run past the end of the content
  (`InsideUnlessFlagSticks`, `StickyFlag`), and a reversed range is accepted when it ends at or after the last byte
  (`ReversedSpec`). The comment in the parser promises the clamped reading for open-ended ranges;
- a playlist without blocks never closes its stream: nothing at all is sent
  (`FilePlayer.FilePlayer.StartDownload`).

## Model

| member | source | states |
|---|---|---|
| NodeRanking.NodeHolder.constructor | core/node/node.go:40-59 | a new holder lists the given nodes in order, each with weight 1 and the one outcome +1 |
| NodeRanking.NodeHolder.AdjustNode | core/node/node.go:73-104 | on any list, the window of a known id becomes the last twenty of its old window and the outcome, its weight the sum over it, and no other entry changes; the edits of the backing array leave exactly the list of the value-level remove, search and insert, or fail exactly when the search looks up an unknown id, which never happens on a list of known ids |
| NodeRanking.NodeHolder.Success | core/node/node.go:61-65 | records the outcome +1, under the same condition |
| NodeRanking.NodeHolder.Fail | core/node/node.go:67-71 | records the outcome -1, under the same condition |
| NodeRanking.NodeHolder.Healthy | core/node/node.go:106-111 | the first k ids; on a ranked list they are distinct, known, and no id left out weighs more than one of them |
| NodeRanking.SetNetwork | zcncore/networkworker.go:131-150 | the consensus size is clamped to at least three and at most the number of sharders, so neither NewHolder nor Healthy can panic |
| NodeRanking.SlidingLaw | core/node/node.go:84-95 | on a full window the new weight is the old weight minus the window's sum plus or minus twenty; on a shorter one it grows by the next position's share |
| NodeRanking.WeightWithinRange | core/node/node.go:84-95 | every weight lies within -210 and 210, and 210 means twenty successes |
| NodeRanking.OutcomeMovesWeight | core/node/node.go:84-95 | a success raises a window's weight unless it is 210, a failure lowers it unless it is -210, also when the window slides |
| NodeRanking.RecordedRecords | core/node/node.go:76-98 | the table after an outcome: the id's window, and its weight as the old one plus the next position's share or, on a full window, less the window's sum and plus or minus twenty; every other entry unchanged |
| NodeRanking.OutcomeInTable | core/node/node.go:73-104 | on a ranked list a success strictly raises the weight unless it is 210, and a failure strictly lowers it unless it is -210 |
| NodeRanking.BisectSplits | core/node/node.go:100-102 | the binary search finds the boundary between nodes at least as heavy and lighter ones |
| NodeRanking.AdjustKeepsRanked | core/node/node.go:73-104 | an outcome for a known id keeps the list a duplicate-free index of the table in descending order with correct weights |
| NodeRanking.Replay | core/node/node.go:61-104 | a run of outcomes for known ids keeps the list ranked, the set of known ids, and the list a permutation of what it was |
| NodeRanking.EveryRunStaysRanked | core/node/node.go:40-104 | the same after every run of Success and Fail on known ids, and the list stays a permutation of the initial ids |
| NodeRanking.TopIsHeaviest | core/node/node.go:106-111 | nothing outside the first k entries outweighs anything inside |
| NodeRanking.FailNeverPromotes | core/node/node.go:73-104 | a failure never improves a node's position |
| NodeRanking.SuccessDemotesOnlyAtTop | core/node/node.go:73-104 | a success worsens a node's position exactly when its weight is 210 and the next node's is too |
| NodeRanking.IndexKeptIffKnown | core/node/node.go:73-104 | list and table agree after an outcome exactly when the id was known |
| NodeRanking.ListedNeverFails | core/node/node.go:73-104 | while every listed id is known the search dereferences no nil |
| NodeRanking.SecondUnknownFails | core/node/node.go:73-104 | from a ranked list, the second of two reports about unknown ids always dereferences nil |
| BlockChain.JoinDetermines | zcncore/transaction_base.go:628-629 | texts joined with colons can be told apart up to the first part that holds a colon |
| BlockChain.ExtendsIff | zcncore/transaction_base.go:627-632 | a header extends a block if and only if its hash is that of its eight fields in order, joined with colons |
| BlockChain.HashInputDetermines | zcncore/transaction_base.go:627-632 | for ids that are not confusable and colon-free previous hashes, equal hash texts mean equal ids, predecessors and numbers, and equal colon-free roots |
| BlockChain.SameIdDetermines | zcncore/transaction_base.go:627-632 | with the same miner id on both sides, whatever it holds, equal hash texts mean equal predecessors and numbers |
| BlockChain.LinkedEverywhere | zcncore/transaction_base.go:651-654 | in a linked chain every header extends its predecessor |
| BlockChain.SameTipSameChain | zcncore/transaction_base.go:627-665 | linked chains of equal length with the same tip, colon-free hashes and no confusable pair of miner ids have the same start and the same blocks, unless they contain a hash collision |
| BlockChain.SameTipSameColonFreeChain | zcncore/transaction_base.go:627-665 | the same for chains without any colon in hashes and miner ids |
| BlockChain.ConfusableIdsBreakTheLink | zcncore/transaction_base.go:627-632 | for every pair of confusable ids one block hash extends two different colon-free predecessors, whatever the hash function |
| BlockChain.LinkIsAmbiguousIff | zcncore/transaction_base.go:627-632 | headers with two given miner ids can share a hash text over different colon-free predecessors if and only if one id is confusable with the other |
| BlockChain.ColonsBreakTheLink | zcncore/transaction_base.go:627-632 | the instance of two ids m and m:1 |
| Tally.TallyVote | zcncore/transaction_base.go:613-616 | bumping one counter and the running maximum keeps both equal to the plain counts |
| Tally.CastKeepsPolled | zcncore/transaction_query.go:438-460 | the value kept by a running poll is always a vote for a key with the most votes, kept once the threshold is reached |
| RoundVote.GetBlockInfoByRound | zcncore/transaction_base.go:565-625 | a header is returned if and only if, for some nonempty hash, four times the replies with status 200 and a parsed header of that hash reach the number of queried sharders; it is the header that completes the first such quarter; "too many failures" if and only if some reply finds more than 75 percent failed, and then no completion could win |
| RoundVote.ReachesIffWon | zcncore/transaction_base.go:613-619 | the whole-percent test on a counter is the exact quarter of the queried sharders, counted over the replies |
| RoundVote.AbortIsFinal | zcncore/transaction_base.go:590-592 | once the abort condition holds, no completion of the run reaches the threshold |
| RoundVote.FailuresAreFailed | zcncore/transaction_base.go:594-611 | the failure counter is the number of replies that are not nil and have another status than 200, no parsed header, or an empty hash |
| RoundVote.DecisionIsUnique | zcncore/transaction_base.go:613-619 | at most one reply and one header decide a round |
| RoundVote.WinningIgnoresOrder | zcncore/transaction_base.go:580-622 | whether a round is decided does not depend on the order of the replies |
| RoundVote.WinsStay | zcncore/transaction_base.go:613-619 | later replies never take a win away |
| Confirmations.SameHashSameBlock | zcncore/transaction_base.go:524-563 | two confirmations accepted with the same block hash agree on the predecessor and the whole header, unless their ids are confusable, their texts hold stray colons, or they exhibit a hash collision |
| TransactionQuery.GetInfo | zcncore/transaction_query.go:290-337 | succeeds if and only if 200 occurs, no other status below 500 occurs more often, and it comes from a quarter of the sharders; the content is that of the last 200; each error has its own condition |
| TransactionQuery.TallyInfo | zcncore/transaction_query.go:296-317 | the captured maximum bounds every status count, and the captured response is a most frequent one, the last 200 unless 200 is strictly beaten |
| TransactionQuery.TallyDecides | zcncore/transaction_query.go:327-336 | what the tally says of the outcome is what the replies say, and it is only one of the outcomes |
| TransactionQuery.InfoIgnoresOrder | zcncore/transaction_query.go:290-337 | success of GetInfo does not depend on the order of arrival |
| TransactionQuery.ConfirmationHandler.Handle | zcncore/transaction_query.go:412-464 | each reply keeps both polls right; cancels exactly when its block then has more votes than any block had before, and enough for the quorum |
| TransactionQuery.ConfirmationHandler.Answer | zcncore/transaction_query.go:466-478 | the answer read off the captured variables is right for all replies handled |
| TransactionQuery.GetConsensusConfirmation | zcncore/transaction_query.go:400-479 | a confirmation is returned if and only if some block hash was vouched for by the quorum of validated replies, with a header no other hash outnumbers, also when replies are handled after the early cancel |
| TransactionQuery.VoteIff | zcncore/transaction_query.go:413-448 | a reply is counted for a header if and only if it has status 200 and its body's confirmation proves the transaction with it |
| TransactionQuery.ReportIff | zcncore/transaction_query.go:425-443 | a finalized block is counted if and only if the reply has status 200, proves nothing and names it |
| TransactionQuery.FastQueryAnswers | zcncore/transaction_query.go:482-526 | the fast query answers exactly the header and block its reply proves, and otherwise no header but the finalized block it reports, if any |
| TransactionQuery.QuorumIgnoresOrder | zcncore/transaction_query.go:400-479 | whether there is a quorum does not depend on the order of arrival |
| NonceCache.NonceCache.GetNextNonce | core/node/cache.go:28-41 | hands out the cached or fetched nonce plus one and caches it |
| NonceCache.NonceCache.Set | core/node/cache.go:43-47 | caches the nonce of one client only |
| NonceCache.NonceCache.Evict | core/node/cache.go:49-53 | forgets the nonce of one client only |
| NonceCache.CountsOwnRequests | core/node/cache.go:28-53 | whatever other clients do, a cached nonce advances by the number of the client's own requests |
| NonceCache.ConsecutiveNonces | core/node/cache.go:28-53 | nonces issued to a client between its own Set and Evict calls are consecutive and distinct in every interleaving |
| SubmitRace.RunKeepsInv | zcncore/transaction_base.go:336-376 | in every interleaving the counter is the number of failed miners and only one of them sees the full count |
| SubmitRace.VerdictIsScheduleIndependent | zcncore/transaction_base.go:336-395 | whenever a verdict comes it is success if and only if some miner answers 200; failC is closed at most once; a closed failC or a non-200 in resultC means all miners failed |
| SubmitRace.ClosedAtMostOnce | zcncore/transaction_base.go:352-364 | a worker that closes failC finds it open |
| SubmitRace.WorkersNeverBlock | zcncore/transaction_base.go:336-376 | a worker that is not done can always take its next step |
| SubmitRace.FinishedMeansReady | zcncore/transaction_base.go:378-395 | with at least one miner, once all workers are done the select is enabled |
| SubmitRace.EveryStepIsProgress | zcncore/transaction_base.go:336-395 | every step lowers the work that is left |
| SubmitRace.RunsAreShort | zcncore/transaction_base.go:336-395 | with n miners no run has more than 2n + 1 steps |
| SubmitRace.NoMinersNoVerdict | zcncore/transaction_base.go:336-395 | with no miners the caller waits for ever |
| SubmitRace.NeverStuckIff | zcncore/transaction_base.go:336-395 | every run still waiting can take a step if and only if there is at least one miner |
| TransactionLife.Transaction.SetNonce | zcncore/transaction_base.go:310-318 | an explicit nonce is kept and cached, otherwise the next one is taken from the cache |
| TransactionLife.Transaction.SubmitTxn | zcncore/transaction_base.go:320-396 | an unsigned transaction is hashed first; success if and only if it is signed and some miner accepts it, with that miner's body as output; an error forgets the client's nonce; one callback |
| TransactionLife.Transaction.SetNonceAndSubmit | zcncore/transaction_base.go:305-308 | a failure leaves no cached nonce; after a success the cache holds the nonce used, so the next automatic one is one more; other clients keep theirs; the hash covers the nonce unless the transaction was signed before |
| TransactionLife.Transaction.CompleteTxn | zcncore/transaction_base.go:266-273 | records status and output and calls back once |
| TransactionLife.Transaction.CompleteVerify | zcncore/transaction_base.go:275-290 | records the outcome, forgets the nonce on an error, calls back once |
| TransactionLife.WalkIsSound | zcncore/transaction_base.go:634-665 | the walk is a hash-linked path of headers each voted for by a quarter of the sharders, and stops at exactly chainLength - 1 headers (chainLength at least 2) |
| TransactionLife.DoneStaysDone | zcncore/transaction_base.go:634-665 | later rounds do not change a finished walk |
| TransactionLife.ValidateChain | zcncore/transaction_base.go:634-665 | validates when the replies decide, call by call, a chain of the required length linked to the confirmed block, and only when they have voted for such a chain; it never returns false |
| TransactionLife.FollowChain | zcncore/transaction_base.go:639-663 | the retrying loop refines the plain walk and holds round - confirmRound - 1 linked headers at every turn |
| TransactionLife.NothingPassedOver | zcncore/transaction_base.go:651-657 | until the walk is long enough, every decided header that extends its tip is appended, and no other |
| TransactionLife.WalkIsComplete | zcncore/transaction_base.go:634-665 | calls that decide the headers of a linked chain one after the other are all followed |
| TransactionLife.ConclusionIsBacked | zcncore/transaction_base.go:634-665 | a confirmation with a finished walk carries all the evidence of a success |
| TransactionLife.ExpiredIsBacked | zcncore/transaction.go:1178-1208 | the expiry branch is taken only after the fast query failed, the consensus query was made in the same turn and found no quorum, and the clock was past creation + 60 s |
| TransactionLife.Transaction.Find | zcncore/transaction.go:1175-1192 | a turn finds a confirmation if and only if the fast reply proves the transaction, or it does not, the deadline has come by the clock or the reported block, and the replies have a quorum; it is the header and block of the fast reply, or of a consensus reply no other block outnumbers |
| TransactionLife.Transaction.Report | zcncore/transaction.go:1212-1242 | the completion follows the status of the decoded transaction; without one there is no callback and nothing changes |
| TransactionLife.Transaction.Conclude | zcncore/transaction.go:1211-1243 | a confirmed block is reported only with a long enough chain behind it; otherwise nothing changes |
| TransactionLife.Transaction.TakeTurn | zcncore/transaction.go:1173-1244 | each turn goes round again, waits for the chain, or ends, and each way carries its evidence; a turn whose fast reply proves the transaction and whose calls decide the chain behind it ends, and not by expiry |
| TransactionLife.NoConfirmingTurnIsPassed | zcncore/transaction.go:1173-1244 | no turn the loop has left behind was one that confirms |
| TransactionLife.Transaction.VerifyLoop | zcncore/transaction.go:1171-1245 | over whole runs: at most one callback, the last turn is backed by its evidence, every earlier turn found neither confirmation nor expiry, and the loop neither passes nor waits in a turn that confirms |
| TransactionLife.Transaction.Verify | zcncore/transaction.go:1149-1247 | success and expiry are sound for the hash and creation date Verify settles on, and a confirming turn is not passed; when it refuses to start, and what it does then |
| TransactionLife.SameTransaction | zcncore/transaction.go:1218-1231 | the transaction adopted is the one whose proofs were checked, if decoding it separately gives the same value |
| TransactionLife.VerificationsAgree | zcncore/transaction.go:1171-1245 | two verifications with chains of equal length and the same last block confirmed the same block, for colon-free hashes and miner ids that are not confusable, unless they exhibit a hash collision |
| Resty.RunKeepsInv | core/resty/resty.go:114-305 | in every interleaving the results sent are those handled and those in the channel, each URL once, and the errors are those of the results handled |
| Resty.SendNeverBlocks | core/resty/resty.go:114-145 | the channel always has room for a result not yet sent, also after an early return |
| Resty.EachUrlHandledOnce | core/resty/resty.go:212-305 | no result is handled twice or before it was sent |
| Resty.UncancelledWaitHandlesAll | core/resty/resty.go:212-254 | an uncancelled Wait handles every URL exactly once; its errors are, in order of arrival, for each result the handler's error if there is one, otherwise the result's if there is one, otherwise nothing |
| Resty.UncancelledFirst | core/resty/resty.go:257-305 | an uncancelled First returns no error if and only if the last result handled is a success, by the handler or without one by the result, and the first one; otherwise all URLs failed and their errors are returned in order |
| Resty.CancelledReturn | core/resty/resty.go:226-232 | an early return gives the errors so far in order, or the deadline's error alone if Wait ran into it |
| Resty.CollectorIsNotStuck | core/resty/resty.go:212-305 | once all goroutines have sent, a collector has something to take |
| Resty.EveryStepIsProgress | core/resty/resty.go:114-305 | every step lowers the work that is left |
| Resty.RunsAreShort | core/resty/resty.go:114-305 | with n URLs no run has more than 2n + 2 steps |
| Resty.CollectorGoesOn | core/resty/resty.go:212-305 | until Wait or First has returned some step is possible |
| HttpRetry.Attempt | core/resty/resty.go:155-190 | between 1 and retry attempts, the first success stops them, every discarded body is closed once; the first attempt of a POST or PUT sends what is left in the reader, every further one the snapshot taken when the request was built |
| HttpRetry.HttpDo | core/resty/resty.go:147-209 | the result is that of the last attempt, whose body was not closed before it is read; the same request bodies, also without retries |
| SharedBody.RunKeepsInv | core/resty/resty.go:114-189 | in every interleaving the first attempts share one copy of the body among them, and every snapshot is the part of the body left when its request was built |
| SharedBody.OneUrlSendsTheBody | core/resty/resty.go:114-189 | with a single URL every attempt sends the whole body |
| SharedBody.WholeBodyIff | core/resty/resty.go:114-189 | every attempt of every run sends the whole body if and only if there is at most one URL or no body; the same for runs in which first attempts read all that is left |
| SharedBody.OneFirstAttemptSendsTheBody | core/resty/resty.go:114-189 | when first attempts read all that is left, at most one URL's first attempt sends anything |
| SharedBody.FurtherAttemptsSendTheBodyIff | core/resty/resty.go:114-189 | a further attempt then sends the whole body if and only if its request was built before any first attempt, and nothing otherwise |
| SharedBody.SentAsByAttempt | core/resty/resty.go:155-190 | the attempts in these runs send what the retry loop sends |
| FromAll.CountIsVoters | zcncore/transaction_query.go:246-288 | a tally over distinct sharders is the number of sharders that vote that way |
| FromAll.QuorumOfDistinctSharders | zcncore/transaction_query.go:400-479 | a quorum found inside a run of the engine is one of that many different sharders, each with a status 200 response that proves the transaction in the same block |
| FromAll.CancelledIffAsked | zcncore/transaction_query.go:246-288 | when only the handler cancels, the context is cancelled if and only if the handler asked for it at some reply handled |
| FromAll.ConfirmationIsScheduleIndependent | zcncore/transaction_query.go:400-479 | when the query returns, cancelled early by its own handler or not, the replies handled have a quorum if and only if the responses of all sharders do |
| FromAll.InfoIsScheduleIndependent | zcncore/transaction_query.go:246-337 | when the query returns, GetInfo succeeds if and only if 200 prevails among the responses of all sharders, one without a response counting as 400 |
| AuthorizerFanIn.RunKeepsInv | zcnbridge/authorizers_query.go:232-267 | in every interleaving the WaitGroup is the number of responses not yet processed, and the events are those of the responses processed |
| AuthorizerFanIn.NeverPanics | zcnbridge/authorizers_query.go:232-267 | no send on the closed channel and no negative WaitGroup |
| AuthorizerFanIn.StepsAreSafe | zcnbridge/authorizers_query.go:232-267 | every send finds the channel open and with room, every Done a positive WaitGroup, and the channel is closed once |
| AuthorizerFanIn.ResultsAreErrorFreeResponses | zcnbridge/authorizers_query.go:232-314 | a returned query holds exactly the error-free responses, each under its own authorizer's id |
| AuthorizerFanIn.EveryStepIsProgress | zcnbridge/authorizers_query.go:232-314 | every step lowers the work that is left |
| AuthorizerFanIn.NeverStuckWithGoodUrls | zcnbridge/authorizers_query.go:232-314 | while every URL is good and the caller has not returned, some step is possible |
| AuthorizerFanIn.BadUrlNeverReturns | zcnbridge/authorizers_query.go:269-277 | if a request cannot be built for some authorizer, no run returns |
| AuthorizerFanIn.MintPayload | zcnbridge/authorizers_query.go:75-105 | a quorum exists if and only if there is a result and the rounded-up percentage of successes reaches the threshold; with one, a missing ticket is dereferenced, or the payload holds the first result's ticket and one signature per result, in order |
| AuthorizerFanIn.QuorumTest | zcnbridge/authorizers_query.go:78-80 | the test compares the percentage of successes, rounded up, with the threshold |
| AuthorizerFanIn.PayloadOfRun | zcnbridge/authorizers_query.go:196-230 | on every run that returns, with distinct ids: no payload without a quorum of error-free authorizers, a nil dereference if and only if one of them sent no ticket, otherwise exactly one signature of each of them, all ids distinct |
| AuthorizerFanIn.SignersAreDistinct | zcnbridge/authorizers_query.go:232-267 | with distinct authorizers the signatures come from distinct signers, each of which answered without error |
| ByteRanges.ParseRange | winsdk/stream_models.go:30-101 | the loop computes the piecewise reading of the header and never reports errNoOverlap |
| ByteRanges.NeverNoOverlap | winsdk/stream_models.go:69-99 | errNoOverlap is unreachable for every header and every total |
| ByteRanges.RefusedIffBadPiece | winsdk/stream_models.go:30-101 | a header is refused if and only if it lacks the prefix or some piece is bad on its own |
| ByteRanges.ParseIntIff | winsdk/stream_models.go:53-83 | a number is an optional sign and digits, within 64 bits |
| ByteRanges.PieceShapes | winsdk/stream_models.go:40-50 | every piece has no dash or splits at its first one, with white space around both sides |
| ByteRanges.NoDashPiece | winsdk/stream_models.go:40-49 | a piece without a dash is skipped if it is blank and refused otherwise |
| ByteRanges.SuffixMeaning | winsdk/stream_models.go:52-63 | nothing before the dash: refused unless a number without minus follows, which is then the suffix length, cut to the content |
| ByteRanges.FirstMeaning | winsdk/stream_models.go:64-91 | a first position: refused unless it and the last one, if any, are numbers in the right order; otherwise the range they give once cut to the content, and when it raises the flag |
| ByteRanges.EveryRangeIsAnchored | winsdk/stream_models.go:51-93 | every range from any header starts in the content, and ends in it unless it has the length of a full request |
| ByteRanges.ParsePrinted | winsdk/stream_models.go:30-101 | printing any list of specs, with white space and empty elements, and parsing it gives one range per spec |
| ByteRanges.RoundTrip | winsdk/stream_models.go:30-101 | for specs that start in the content these ranges cover exactly the bytes of section 2.1 of RFC 7233, open-ended ones cut to one request |
| ByteRanges.MeaningIsSelection | winsdk/stream_models.go:53-92 | the range of a spec covers exactly the bytes the spec selects |
| ByteRanges.InsideUnlessFlagSticks | winsdk/stream_models.go:69-81 | the ranges parsed from a printed header all stay inside the content if and only if no open-ended spec, at or after one beyond the end, asks for more than is left |
| ByteRanges.StickyFlag | winsdk/stream_models.go:69-81 | with ten bytes, the header bytes=20-,5- gives two ranges of full request length |
| ByteRanges.ReversedSpec | winsdk/stream_models.go:64-91 | a spec with last before first is refused if and only if it ends before the last byte; otherwise it yields that byte |
| ByteRanges.HeaderText | winsdk/stream_models.go:17-19 | a Content-Range header is the printed request for its own range, and the total |
| ByteRanges.AnnouncedRangeIsServed | winsdk/stream_models.go:17-101 | parsing that request gives exactly the announced range again |
| FilePlayer.LeastBlocks | wasmsdk/player_file.go:127-131 | rounding up twice gives the least number of blocks that hold the file |
| FilePlayer.RequestsTile | wasmsdk/player_file.go:61-113 | the intervals requested tile an initial part of the blocks in order without gap or overlap, and all of them unless stopped |
| FilePlayer.RequestAt | wasmsdk/player_file.go:61-67 | the k-th request starts at 1 + 10k (for a step of ten), is full unless it is cut at the last block, and is made only while the context is not done |
| FilePlayer.RequestsGoOn | wasmsdk/player_file.go:89-107 | the requests go on until every block is asked for or the context is done |
| FilePlayer.StoppedIff | wasmsdk/player_file.go:90-93 | a download counts as stopped if and only if the context is done when one of its requests would be made |
| FilePlayer.IncomingIs | wasmsdk/player_file.go:89-107 | the closing chunk comes if and only if the download is not stopped |
| FilePlayer.ArrivedIs | wasmsdk/player_file.go:69-79 | request by request, a download that succeeds sends the bytes of its blocks, another one nothing |
| FilePlayer.AskedBlocksArrive | wasmsdk/player_file.go:69-79 | if no download fails, the bytes sent are those of the blocks asked for |
| FilePlayer.BlocksArriveInOrder | wasmsdk/player_file.go:61-113 | the bytes sent are an initial part of the remote bytes, and all of them unless stopped |
| FilePlayer.FilePlayer.DownloadFrom | wasmsdk/player_file.go:61-80 | one request asks for one clamped interval and sends its bytes, or nothing when it fails |
| FilePlayer.FilePlayer.StartDownload | wasmsdk/player_file.go:82-113 | the loop terminates and asks for exactly the tiling; only a download that was not stopped ends with the closing chunk; without blocks nothing is sent |
| FilePlayer.FilePlayer.GetNext | wasmsdk/player_file.go:148-159 | at any moment the results so far are the first ActualFileSize bytes of the chunks taken |
| FilePlayer.FileIsPlayed | wasmsdk/player_file.go:61-159 | if no download fails, what was played is always an initial part of the file, and the whole file without padding at the end of a download that was not stopped |
| MemChanFile.MemChanFile.Write | core/sys/util.go:177-193 | sends a copy at once when there is no chunk size, otherwise appends behind the pending bytes, in place when they fit |
| MemChanFile.MemChanFile.Sync | core/sys/util.go:198-209 | sends the pending bytes as views into their array, leaves none pending, and terminates |
| MemChanFile.MemChanFile.Read | core/sys/util.go:157-171 | copies what the first chunk's cells hold now, all of it or nothing; a chunk that does not fit is lost |
| MemChanFile.MemChanFile.Close | core/sys/util.go:217-226 | closes the channel and leaves what lies in it |
| Chunking.ChunksConserve | core/sys/util.go:198-209 | the chunks concatenate to the pending bytes, all full except the last, which is not empty |
| Chunking.ChunksAreUnique | core/sys/util.go:198-209 | there is no other way to cut the bytes into such chunks |
| Chunking.ChunkCount | core/sys/util.go:200 | a Sync sends the rounded-up quotient of pending bytes and chunk size |
| ChunkMemory.RunAccounts | core/sys/util.go:177-209 | in every run the chunks as they were when sent, followed by the pending bytes, are everything written; the reader has got what the chunks held when taken, unless a read was short |
| ChunkMemory.WriteLaw | core/sys/util.go:177-193 | a Write appends in the same array if and only if the bytes fit behind the pending ones, otherwise in a new one with the pending bytes copied; without a chunk size it sends a copy; nothing else changes |
| ChunkMemory.ReadBackIff | core/sys/util.go:157-209 | whatever bytes are written, a run of this shape has them all read, in the channel or pending, in order, if and only if no Write overwrites a chunk not yet read and no read is short |
| ChunkMemory.SameShapeSameLayout | core/sys/util.go:177-209 | whether a chunk is overwritten depends on lengths alone, not on the bytes |
| ChunkMemory.WithoutChunkSize | core/sys/util.go:178-181 | without a chunk size no chunk is ever overwritten |
| ChunkMemory.DrainedIsSafe | core/sys/util.go:177-209 | nor if the channel has been read empty whenever bytes are written |
| ChunkMemory.WriteAfterSyncOverwrites | core/sys/util.go:190-207 | bytes written right after a Sync, if they fit into the old array, overwrite the first chunk sent |
| ChunkMemory.SecondBatchTwice | core/sys/util.go:177-209 | two batches of one chunk each, written and synced before two reads, arrive as the second batch twice, and no read is short |

## Left out

- HTTP, JSON, clocks, hashing, Merkle paths and signatures are parameters; log output is not modelled.
- Integers are unbounded: the wrap-around of 64-bit counters, nonces and positions is not modelled. The numbers of block headers and those the byte-range parser reads are kept to 64 bits.
- NodeRanking.NodeHolder.constructor: asks for no more nodes than given where NewHolder panics; duplicate node ids are modelled, but the ranking lemmas need distinct ones.
- NodeRanking.NodeHolder.AdjustNode: the mutex is not modelled; a nil dereference ends the call with `ok` false, and the panic it causes is not followed further.
- NodeRanking.NodeHolder.Healthy: returns a value, so later changes seen through the slice shared with the holder are not modelled; nor are the growth policy of append and the spare capacity it leaves.
- NodeRanking.SetNetwork: the overwriting of the global configuration is not modelled, nor UpdateRequired and UpdateNetworkDetails, which compare and replace whole lists.
- RoundVote.GetBlockInfoByRound: the timer is the end of the reply sequence; which of a ready reply and an expired timer Go picks is not modelled.
- TransactionLife.ValidateChain: works on a finite stretch of replies, because the loop may wait for ever; the sleeps between retries are not modelled.
- TransactionLife.Transaction.Verify: works on finite traces of turns; the healthy sharders, the quorum and the chain length stay fixed during one verification; the random choice of a sharder and the sets of selected and offline sharders are inside the reply of the fast query.
- TransactionLife.Transaction.SubmitTxn: takes a run of the race that has come to a verdict; callbacks are recorded, so what user code does between a callback and the eviction of the nonce is not modelled.
- TransactionLife.SameTransaction: assumes that decoding the transaction separately agrees with decoding it inside the confirmation, which depends on the JSON library.
- NonceCache.ConsecutiveNonces: concurrent calls are interleaved whole operations, because each holds the lock from start to end.
- Resty.RunKeepsInv: a result is one step; the request itself, the transport and its timeouts are inside the result.
- HttpRetry.HttpDo: the body of a POST or PUT is taken to be one that GetBody can copy; a nil GetBody is not modelled.
- SharedBody.RunKeepsInv: a first attempt reads its share of the body in one step; two goroutines reading the same reader at the same time, which is a data race, are not modelled.
- FromAll.ConfirmationIsScheduleIndependent: the caller's context is never done, as in Verify and GetInfoFromSharders, which pass one that cannot be cancelled.
- AuthorizerFanIn.MintPayload: the fields copied from the first result's ticket are one value. A body that cannot be decoded is only logged by the source and counts as a success with whatever was decoded: on the Ethereum path a ticket that may be empty, on the 0chain path possibly none.
- FilePlayer.FilePlayer.StartDownload: the channel has no capacity limit and the goroutine that sends the closing chunk sends at once; downloadBlocks is taken to return the bytes of consecutive blocks.
- MemChanFile.MemChanFile.Write: the new array append or the pool provides is any array nobody else holds; that Close hands the array back to the pool while chunks in it may be unread, and the panic of a send after Close, are not modelled.
- MemChanFile.MemChanFile.Read: the error channel, and reading a chunk while another goroutine writes to its cells, which is a data race, are not modelled; in a run a read on an empty channel does nothing.
- The mobile twins of these files, the smart-contract wrappers, the bridge and token clients, the language bindings and the caches of the Windows SDK.
- GetRoundFromSharders, GetHardForkRound and the other queries of the node holder: their results follow no order one could state a guarantee about.
