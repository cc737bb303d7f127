# A verified model of the collaborative block editor

The editor keeps a tree of blocks per document. The api server applies structural operations to the table
`doc_blocks` and streams the applied ones; each browser holds a replica with a derived index and edits it
optimistically; WebSocket instances replay the stream to reconnecting sockets and fan live entries out over rooms
and a bus; a consumer folds streamed text deltas into the rows. This project models these four parts and proves
what they promise together.

| file | what it models |
|---|---|
| `Ranks.dfy`, `ServerRanks.dfy`, `ShortestRanks.dfy`, `ClientRanks.dfy`, `RankValues.dfy` | position strings under the byte order, the two generators of a string in between, when the server's is a shortest one, and the very strings they return |
| `Forest.dfy`, `Placement.dfy`, `Wire.dfy` | parent pointers, places among siblings, and the values both sides exchange |
| `ApplyOps.dfy`, `Effects.dfy`, `ApplyProperties.dfy`, `HeadInsertions.dfy` | the server's operation applier over `doc_blocks`, what each operation does and when it is refused, what runs keep, and runs of insertions at the head |
| `BlockIndex.dfy`, `Flatten.dfy`, `BlockStore.dfy`, `LocalEdits.dfy`, `LocalDepths.dfy` | the client store: index, tree-ordered listing, actions, optimistic edits |
| `Replica.dfy`, `Reordering.dfy`, `RemoteDepths.dfy`, `Versions.dfy` | server and client together: the blocks, also when the stream comes in another order, the depths, and the version numbers |
| `Streams.dfy`, `Replay.dfy`, `Sessions.dfy` | the Redis stream, the replay to one socket, and a client's cursor |
| `Rooms.dfy`, `Handlers.dfy`, `Delivery.dfy`, `Progress.dfy`, `Disconnects.dfy` | rooms and subscriptions, the crdt handler and the bus listener, all instances interleaved, what can always go on, and what a disconnect in the middle loses |
| `ConsumerGroups.dfy`, `Worker.dfy`, `Consumers.dfy`, `LostEntries.dfy` | a stream with its consumer group, the consumer that applies deltas to rows, all consumers interleaved, and two runs that lose an entry |
| `Base64.dfy`, `BlockContent.dfy` | the text form of a delta, and what deltas make of a block's content |
| `Wrappers.dfy` | Option and Result |

How to read it. A class or method stands for code that works in steps; its `ensures` equates the new state with a
function of the old one (`InsertStep`, `RemoteStep`, `JoinStep`, `Handled`, ...), and the lemmas are about those
functions and about arbitrary runs of them. Ids are natural numbers, a rank is a sequence of character codes, a
stream id a pair of numbers. JSON, Yjs and the content of blocks are opaque: a parser or library call is a function
parameter, quantified over in every statement.

## Where the code and its own words differ

The model follows the code. Each difference comes with the lemma that says exactly when it shows, and with an input.

- `midpoint("m", "m0")` raises, although the comment calls that branch impossible; it is reached exactly when the
  right bound is the left one followed by '0's (`BetweenExact`, `IdenticalPaddingIsReachable`).
- The docstring promises the shortest rank, open bounds included. It is returned exactly when nothing shorter fits
  (`ShortestIff`; "azi" between "az" and "b1", "ai" after "a", "05" before "0a": `BetweenIsNotShortest`,
  `OpenIsNotShortest`).
- `_before` of an all-'0' rank is larger than it, so a sixth head insertion above the seed lands second
  (`BeforeSpec`, `HeadInsertBound`, `SeedDescent`). The seventh repeats the position of the sixth: at the root UNIQUE
  does not bind, and positions stay distinct exactly if the head is not taken (`StaysDistinct`, `RootPositionsRepeat`,
  `SeededRootRepeats`). Below a parent that insertion, and every later one, is refused (`AppliedIff`).
- The client's `midpoint` is on the wrong side of `next` exactly when `next` is `prev` followed by 'a's and then by
  nothing or a character below 'a', and not above `prev` exactly when 40 characters do not suffice (`MidpointExact` of
  `ClientRanks`; `EndingInMinIsOverrun`, `DigitIsOverrun`, `FortyOneIsTight`).
- A streamed delete removes the subtree on the server, while a client moves the children to the root: it looks the
  deleted block up after deleting it, so never finds its parent (`StepEqualIff`).
- A local delete promotes children to the grandparent without changing their depth, which is then one too many
  (`EditDepthsIff`, `PromotionSpoilsDepths`).
- A streamed move leaves the client's depth alone: depths stay equal exactly if no block moves to another level
  (`DepthsFollowIff`).
- The stream is appended after the commit, so two POSTs can be streamed in another order than they were applied. A
  client follows all the same if the operations on each block keep their order (`ReorderedFollows`); two moves of one
  block that change places leave it behind unless they go to the same place (`ReversedMovesIff`).
- A client's version of a block drifts from the server's. It is the one set last, by an echoed insert, attrs or content
  update, an ack, a local insert or a nack, and its next version-checked operation is refused exactly if that is not
  the server's (`VersionIsLastSet`, `LeadOverRun`, `NextIsStaleOverRun`): an echoed update puts it one ahead, an
  acknowledged conflict at 0 (`AckedConflictStaysStale`), and an ack that comes after a later echo behind
  (`LateAckIsBehind`, `LateReplyIsBehind`).
- A nack of the ws server carries no block, so the client drops the block it names: it follows on exactly if the server
  has none (`NackFollowsIff`, `BareNackFollowsIff`).
- The cursor `0-0` bypasses the trim check, so a trimmed frame can be lost without a reload (`ReplayCompleteIff`,
  `SentinelLosesTrimmed`).
- A reload is demanded although nothing is lost, exactly if just the entries up to the cursor were trimmed
  (`NeedlessReloadIff`).
- The client's cursor is the id of its last frame, live or replayed. A disconnect loses what a live frame has overtaken:
  before the replay anything not sent live below the last live frame, behind it only what is still to be broadcast
  below one (`BeforeReplayIff`, `AfterReplayIff`, `SettledReplayIff`; `LossIsReached`).
- A subscription that is active when XRANGE runs does not protect a socket: an UNSUBSCRIBE issued for an earlier
  socket may still be outstanding (`SettledIff`, `ActiveSubscriptionIsNotEnough`).
- A socket that is closed before its close listener exists, because its connection broke, its SUBSCRIBE or XRANGE
  failed, or its replay was trimmed, stays in its room for good, and its instance never unsubscribes from the document
  again (`InRoomIff`, `StrandedIff`, `StrandedForGood`, `DroppedIsStranded`). After a failed SUBSCRIBE it never
  subscribes again either, so every later socket there can miss entries (`RejectedForGood`, `AfterRejectionIff`,
  `FailedIsRejected`).
- The worker's comment promises that an unacknowledged entry is retried on the next cycle, but it reads new entries
  only: what was handed out and did not take effect never does (`TookEffectIff`, `NeverRetried`; `TooEarlyIsLost`). A
  lower id that is handled late is acknowledged without effect (`LateEntryIsLost`; `CrossedIsLost`).
- `extract_content` is documented to leave the attributes to `update_attrs`, but its result replaces the whole column:
  attributes survive exactly until a delta of the block takes effect (`AttrsSurviveIff`).
- An instance writes the base64 text of a delta to the stream, and the worker hands what it reads to Yjs undecoded.
  Unless the library accepts some such text as a first delta, no delta is ever acknowledged and no row changes
  (`TextAppliesIff`).

## Model

| member | source | states |
|---|---|---|
| Ranks.LtIffSplits | apps/api/app/ops/apply.py:138-185 | `position` comparisons are the byte order: one string is smaller iff it is a proper prefix or smaller at the first difference |
| Ranks.LtTotal | apps/api/app/ops/apply.py:138-185 | of two positions one is smaller unless they are equal |
| Ranks.LtTransitive | apps/api/app/ops/apply.py:138-185 | the order of positions is transitive |
| ServerRanks.ComputeMidpoint | apps/api/app/lexorank.py:52-97 | the loop over the padded bounds computes `Midpoint`, the function the lemmas below are about, with the same errors |
| ServerRanks.ScanPadded | apps/api/app/lexorank.py:76-97 | the character loop returns what the recursive scan of both padded strings returns |
| ServerRanks.ComputeBefore | apps/api/app/lexorank.py:100-126 | the walk down the old head computes `Before` |
| ServerRanks.MidpointsBetween | apps/api/app/lexorank.py:160-174 | bulk generation is the chain of midpoints, empty for a non-positive count, and stops at the first error |
| ServerRanks.BetweenExact | apps/api/app/lexorank.py:66-97 | two bounds: a rank is returned iff left < right and right is not left followed by '0's; it lies strictly between, ends in a non-'0' digit, is no prefix of right and at most one longer than the longer bound; otherwise it raises |
| ServerRanks.IdenticalPaddingIsReachable | apps/api/app/lexorank.py:96-97 | the branch the source calls impossible is reached by "m" and "m0" |
| ServerRanks.BetweenIsNotShortest | apps/api/app/lexorank.py:55-56 | "azi" is returned between "az" and "b1", where the shorter "b" fits |
| ShortestRanks.ShortestIff | apps/api/app/lexorank.py:52-126 | for all bounds with room, open ones included, the result is a shortest rank within them iff: after a left bound alone, that is all 'z's; before a right bound alone, that does not start with '0'; between two, at their first padded difference either a digit fits between and the left bound reaches it, or none does, the right bound ends there and the left one goes on with at most 'z's |
| ShortestRanks.OpenIsNotShortest | apps/api/app/lexorank.py:55-65 | "ai" is returned after "a", where "b" fits, and "05" before "0a", where "0" fits |
| ServerRanks.BeforeSpec | apps/api/app/lexorank.py:100-126 | the new head is smaller iff the old one is not all '0'; it halves the first digit, is no longer than the old head, and ends in a non-'0' digit or is all '0' |
| ServerRanks.HalvingsIsLog2 | apps/api/app/lexorank.py:110-117 | the number of halvings of a digit v is floor(log2 v) + 1 |
| ServerRanks.HeadInsertBound | apps/api/app/lexorank.py:100-126 | head insertions descend strictly for exactly that many steps, end in an all-'0' rank, and the next one lands behind it |
| ServerRanks.SeedDescent | apps/api/app/lexorank.py:118-126 | from the seed "m" the descent lasts five steps |
| ServerRanks.AfterIsGreater | apps/api/app/lexorank.py:129-136 | an appended rank is greater and ends in a non-'0' digit |
| ServerRanks.MidpointExact | apps/api/app/lexorank.py:52-97 | all four combinations of open bounds: the result is strictly within its bounds iff there is room; only two closed bounds without room raise; with no bound it is "m", with a left one only that and an "i" |
| RankValues.BeforeValue | apps/api/app/lexorank.py:109-117 | before a bound with leading '0's, the first digit behind them is halved and the rest is dropped |
| RankValues.BeforeZeros | apps/api/app/lexorank.py:118-126 | before an all-'0' bound, that bound and an "i" is returned |
| RankValues.BeforeErrors | apps/api/app/lexorank.py:100-126 | before a bound it is the first character other than '0' that is refused, if it is outside the alphabet |
| RankValues.BetweenValue | apps/api/app/lexorank.py:69-94 | two bounds: up to the first padded difference the common part, then the digit in the middle, if there is one; otherwise the padded left bound and an "i" |
| RankValues.BetweenErrors | apps/api/app/lexorank.py:64-97 | bounds out of order are refused as such; bounds in order that are ranks raise iff the right one only adds '0's to the left one, as identical after padding |
| RankValues.ScanErrors | apps/api/app/lexorank.py:38-42 | and the first compared character outside the alphabet is refused as that |
| ServerRanks.ChainExact | apps/api/app/lexorank.py:160-174 | bulk generation yields `count` strictly increasing ranks within the bounds, the k-th at most k longer than the longer bound, iff the bounds have room |
| ClientRanks.ComputeMidpoint | apps/web/src/lib/lexorank.ts:25-69 | both nested loops terminate on all inputs and compute `Midpoint` |
| ClientRanks.MidpointExact | apps/web/src/lib/lexorank.ts:25-69 | for every `prev` up to 'z', server ranks included: the result is above `prev` iff the give-up does not cut it short; for bounds in order it is below `next` iff `next` is not `prev`, then 'a's, then nothing or a character below 'a', and above `next` otherwise |
| ClientRanks.MidpointIsProper | apps/web/src/lib/lexorank.ts:25-69 | from lowercase bounds the result is lowercase, non-empty and does not end in 'a' |
| RankValues.ClientBetween | apps/web/src/lib/lexorank.ts:25-46 | up to the first padded difference the padded lower bound, and with a character in between there, the one in the middle |
| RankValues.ClientAtRunEnd | apps/web/src/lib/lexorank.ts:47-60 | otherwise the lower bound up to the end of the run of 'z's behind it and the character there raised half-way to the end of the alphabet |
| RankValues.ClientGivesUp | apps/web/src/lib/lexorank.ts:61-69 | or, if the run goes on beyond index 40, the lower bound up to there and an "m" |
| RankValues.RunEndsOrGoesOn | apps/web/src/lib/lexorank.ts:47-69 | one of the last two it always is |
| RankValues.FirstIsN | apps/web/src/lib/lexorank.ts:25-46 | without bounds the result is "n" |
| ClientRanks.MidpointTotallyCorrect | apps/web/src/lib/lexorank.ts:25-69 | with `prev` of at most 41 characters the result is lowercase, strictly between, and does not end in 'a' |
| ClientRanks.FortyOneIsTight | apps/web/src/lib/lexorank.ts:62-66 | for every longer `prev` of 'z's the result is not above it |
| ClientRanks.EndingInMinIsOverrun | apps/web/src/lib/lexorank.ts:34-46 | one family of that exception: when `next` only adds 'a's to `prev`, the result lies behind `next` |
| ClientRanks.DigitIsOverrun | apps/web/src/lib/lexorank.ts:34-50 | another: a head insertion before a rank that starts below 'a', as server ranks can, lands behind it |
| ApplyOps.ComputeMergedAttrs | apps/api/app/ops/apply.py:191-207 | popping and setting one key at a time yields the merge in which null removes and anything else overwrites |
| ApplyProperties.PatchesCompose | apps/api/app/ops/apply.py:191-207 | two patches in a row act like one in which the later wins |
| ApplyOps.DocBlocks.SelectFirst | apps/api/app/ops/apply.py:141-185 | ORDER BY position LIMIT 1 yields the least position |
| ApplyOps.DocBlocks.ComputePosition | apps/api/app/ops/apply.py:112-188 | the position is `Place`: the midpoint of the position of `after` and the least one beyond it among the destination's children |
| ApplyOps.DocBlocks.InsertBlock | apps/api/app/ops/apply.py:229-307 | the new table and outcome, with every conflict in the source's order |
| ApplyOps.DocBlocks.DeleteCascading | infra/postgres/init.sql:38 | the level-by-level cascade removes exactly the rows whose ancestor chain passes through the target |
| ApplyOps.DocBlocks.DeleteBlock | apps/api/app/ops/apply.py:310-352 | idempotent on a missing block, refused on a stale version, otherwise the cascade |
| ApplyOps.DocBlocks.MoveBlock | apps/api/app/ops/apply.py:355-434 | the new table and outcome; only the moved row changes |
| ApplyOps.DocBlocks.UpdateAttributes | apps/api/app/ops/apply.py:437-491 | the merged attributes and the next version, or the conflict |
| ApplyOps.DocBlocks.OverwriteContent | apps/api/app/ops/apply.py:494-535 | the new content and the next version, unchecked |
| ApplyOps.DocBlocks.ApplyOp | apps/api/app/ops/apply.py:543-565 | every operation is one atomic `Step` |
| Effects.InsertEffect | apps/api/app/ops/apply.py:229-307 | an applied insert adds one row with the posted type, content and parent at version 1, one level below the parent; the wire carries the same |
| Effects.MoveEffect | apps/api/app/ops/apply.py:355-434 | an applied move changes parent, position, depth and version of one row, keeps type and content, and puts the new place on the wire |
| Effects.AttrsEffect | apps/api/app/ops/apply.py:437-491 | an applied attrs update, key by key: the patch's value, gone if that is null, as before if not patched; body, type and place stay, the version grows by one, and the wire carries exactly the patch |
| Effects.ContentEffect | apps/api/app/ops/apply.py:494-535 | an applied content update sets the posted content, raises the version, and puts that content on the wire |
| Effects.DeleteEffect | apps/api/app/ops/apply.py:310-352 | an applied delete removes the block, or changes nothing if it is missing, with version 0 on the wire then and the next one otherwise |
| Effects.RefusedIff | apps/api/app/ops/apply.py:543-565 | every operation is refused iff its block, parent, sibling, rank or expected version is not as it needs; as stale iff it expects another version of a present block; with the present row where the source reports it |
| Effects.ReasonIs | apps/api/app/ops/apply.py:229-565 | and why: the block first, then parent, sibling, rank and collision, in this order |
| Effects.AnswerIs | apps/api/app/routes/blocks.py:113-134 | what the caller is told about every operation |
| Effects.LastPosition | apps/api/app/ops/apply.py:112-188 | with no sibling beyond, an applied insert or move gets "m", or the position of `after` and an "i" |
| Effects.NextPosition | apps/api/app/ops/apply.py:112-188 | otherwise it gets the rank before the next sibling, or between `after` and the next sibling |
| ApplyOps.DocBlocks.ApplyAll | apps/api/app/routes/blocks.py:98-108 | the loop's table, outcomes and applied operations are those of the run |
| ApplyOps.DocBlocks.PostOperations | apps/api/app/routes/blocks.py:75-182 | results answer the operations one by one; the applied ones, in order and if there are any, are appended, recorded and published under the id XADD gives, which the caller is told; a failing append stops the record, but neither the publish nor the answer, both of which then carry no id |
| ApplyOps.BuildResults | apps/api/app/routes/blocks.py:113-134 | applied operations report their version, conflicts version 0 and the current block |
| ApplyProperties.StepKeepsTree | apps/api/app/ops/apply.py:97-109 | no operation leaves a dangling parent or one of another document |
| ApplyProperties.DeleteRemovesExactlyTheSubtree | infra/postgres/init.sql:38 | an applied delete removes a block iff its ancestor chain passes through the target, and changes no other |
| ApplyProperties.StepAcyclicIff | apps/api/app/ops/apply.py:355-434 | an applied operation keeps the forest acyclic iff it does not move a block into its own subtree |
| ApplyProperties.StepDepthsIff | apps/api/app/ops/apply.py:391-418 | recorded depths stay the numbers of ancestors iff a move makes no cycle and moves a leaf or keeps the level |
| ApplyProperties.RunForest | apps/api/app/ops/apply.py:229-434 | over whole runs: acyclic without self-nesting moves, and right depths if moved blocks are leaves |
| ApplyProperties.PlaceSpec | apps/api/app/ops/apply.py:112-188 | a computed position is well-formed and at most one per sibling set is all '0'; with `after` it is above exactly the siblings up to `after` and equals none; without, it is below all siblings if none of them is all '0' |
| ApplyProperties.PlaceFailsIff | apps/api/app/ops/apply.py:112-188 | it fails iff `after` is unknown or the next sibling's position is that of `after` followed by '0's, with these reasons |
| ApplyProperties.PlaceNeverRaises | apps/api/app/ops/apply.py:264-267 | with `after` absent or a child of the destination, no rank is ever missing |
| ApplyProperties.StepKeepsShape | apps/api/app/ops/apply.py:269-289 | positions end in a non-'0' digit or are all '0', at most one all-'0' per sibling set, distinct below a parent |
| ApplyProperties.RunInvariant | apps/api/app/ops/apply.py:229-434 | tree and rank shape hold on every run from an empty or seeded table |
| ApplyProperties.RunNeverRaises | apps/api/app/lexorank.py:96-97 | on every run, "identical inputs after padding" is never raised for an `after` that is a child of the destination |
| ApplyProperties.PlacementFrame | apps/api/app/ops/apply.py:269-287 | an insert or move changes the row of its block only |
| ApplyProperties.LandsAfter | apps/api/app/ops/apply.py:112-188 | an applied insert or move lands immediately after the sibling it names |
| ApplyProperties.LandsFirst | apps/api/app/ops/apply.py:138-161 | without `after` the block goes first iff no other sibling is all '0' and, when it is itself the all-'0' sibling, all others are above its position followed by the middle character |
| ApplyProperties.PlaceIsTakenIff | apps/api/app/ops/apply.py:138-161 | the computed position is that of another sibling iff there is no `after`, a sibling z is all '0', and another sibling stands at z followed by the middle character |
| ApplyProperties.StaysDistinct | infra/postgres/init.sql:54 | distinct sibling positions stay distinct iff the operation is not a head insertion or move at the root with that place taken, also when `after` belongs to another parent |
| ApplyProperties.AppliedIff | apps/api/app/ops/apply.py:229-434 | a well-aimed insert or move is applied iff it does not go to a taken head below a parent; if refused, it is as a position collision |
| HeadInsertions.HeadRunDescends | apps/api/app/lexorank.py:100-126 | runs of head insertions at the root, on any table: each applies, the head goes down through the halvings of its first digit and then stays |
| HeadInsertions.RootPositionsRepeat | infra/postgres/init.sql:54 | from any head with first non-'0' digit v, the head insertions numbered floor(log2 v) + 2 and + 3, or 1 and 2 if it is all '0', are both applied and get the same position |
| HeadInsertions.SeededRootRepeats | apps/api/app/lexorank.py:118-126 | from the seed "m" the sixth and the seventh end up at "0i" |
| ApplyProperties.ConflictChangesNothing | apps/api/app/ops/apply.py:543-565 | every conflict leaves the table unchanged and reports the row as it is |
| ApplyProperties.VersionCountsOperations | apps/api/app/ops/apply.py:229-535 | on every run a version is 1 plus the applied move, attrs and content operations since the insert |
| ApplyProperties.OneWinnerPerVersion | apps/api/app/ops/apply.py:310-491 | within one life of a block, at most one version-checked operation applies per expected version |
| BlockIndex.SortByPosition | apps/web/src/store/block-store.ts:108-113 | sorting permutes and orders by position |
| BlockIndex.SortIsStable | apps/web/src/store/block-store.ts:108-113 | blocks with equal positions stay in the order they came in |
| BlockIndex.RebuildIndex | apps/web/src/store/block-store.ts:93-119 | for any block map and any iteration order: roots and every children list are sorted permutations, with no empty entry |
| BlockIndex.IndexIgnoresContent | apps/web/src/store/block-store.ts:320-344 | an index stays right when neither parents nor positions change |
| Flatten.Walk | apps/web/src/store/block-store.ts:162-168 | the nested `walk` terminates, also on maps with cycles, and appends the listing below its block |
| Flatten.FlattenBlocks | apps/web/src/store/block-store.ts:156-171 | over the index of any block map: exactly the rooted blocks, each once, ancestors first, subtrees contiguous, siblings in position order |
| Flatten.PathIsShort | apps/web/src/store/block-store.ts:162-168 | no chain from a root is longer than the map, which is why the walk ends |
| Flatten.WalksInOrder | apps/web/src/store/block-store.ts:162-169 | the walk reaches paths in preorder |
| Flatten.PrefixesAreConvex | apps/web/src/store/block-store.ts:162-169 | what is listed between a block and one below it is below it too |
| BlockStore.Store.constructor | apps/web/src/store/block-store.ts:177-186 | the store starts with an agreeing index |
| BlockStore.Store.LoadSnapshot | apps/web/src/store/block-store.ts:188-201 | blocks are those of the snapshot, the last occurrence of an id winning; the index agrees; the queue is empty |
| BlockStore.SnapshotHolds | apps/web/src/store/block-store.ts:188-192 | each block of the snapshot is the one its last occurrence carries, and there are no others |
| BlockStore.Store.ResetDoc | apps/web/src/store/block-store.ts:203-214 | everything is empty again |
| BlockStore.Store.AllOrder | apps/web/src/store/block-store.ts:221-225 | the union of all lists yields every sibling list in index order, whichever order the lists are visited in |
| BlockStore.Store.ComputePosition | apps/web/src/store/block-store.ts:125-153 | the position is squeezed between the neighbours that `after` selects |
| BlockStore.Store.InsertBlock | apps/web/src/store/block-store.ts:216-259 | the block is placed by the index with the given type and content at version 1, no other block changes, the index agrees again, and the operation is queued |
| BlockStore.Store.DeleteBlock | apps/web/src/store/block-store.ts:261-284 | children go to the grandparent, the index agrees again, and the operation is queued |
| BlockStore.RemoveAndPromote | apps/web/src/store/block-store.ts:265-272 | the loop over the map hands exactly the children of the deleted block on |
| BlockStore.Store.MoveBlock | apps/web/src/store/block-store.ts:286-318 | the block is placed by the index and keeps type, content and version; nothing happens for a missing block |
| BlockStore.InsertedIs | apps/web/src/store/block-store.ts:228-240 | a local insert leaves the given type, content and parent at version 1, one level below the parent, and no other block changed |
| BlockStore.MovedIs | apps/web/src/store/block-store.ts:296-302 | a local move keeps type, content and version, and changes no other block |
| BlockStore.DeletedIs | apps/web/src/store/block-store.ts:261-284 | a local delete hands the children to the grandparent, a streamed one to the root; nothing else changes about any remaining block |
| BlockStore.Store.UpdateAttrs | apps/web/src/store/block-store.ts:320-333 | attributes are overlaid and queued, and the untouched index still agrees |
| BlockStore.Store.UpdateContent | apps/web/src/store/block-store.ts:335-344 | content is replaced, nothing is queued, and the untouched index still agrees |
| BlockStore.Store.ApplyRemoteOps | apps/web/src/store/block-store.ts:346-431 | blocks are the fold of the operations, the index agrees, and the cursor moves if one came along |
| BlockStore.StreamedIs | apps/web/src/store/block-store.ts:346-423 | field by field what a streamed insert, move, attrs or content update leaves of its block, and that it leaves the others alone |
| BlockStore.Store.HandleAck | apps/web/src/store/block-store.ts:433-444 | versions are set, the batch is settled, and the untouched index still agrees |
| BlockStore.VersionsSet | apps/web/src/store/block-store.ts:433-439 | each block gets the version of the last result for it, all else being as before |
| BlockStore.Store.SetLastStreamId | apps/web/src/store/block-store.ts:469 | only the cursor changes |
| BlockStore.Store.HandleNack | apps/web/src/store/block-store.ts:446-460 | blocks are rebased on the reported ones and the batch is settled |
| BlockStore.Store.EnqueueOps | apps/web/src/store/block-store.ts:477-484 | a batch gets the next sequence number, which keeps the queue in order |
| BlockStore.Store.DrainPending | apps/web/src/store/block-store.ts:471-475 | all unsettled batches are sent, oldest first |
| BlockStore.SettleRemovesOne | apps/web/src/store/block-store.ts:441 | filtering by sequence number removes exactly one batch of the queue |
| LocalEdits.EditLands | apps/web/src/store/block-store.ts:216-318 | one edit puts the block right after its sibling, first, or last, and keeps positions proper and distinct |
| LocalEdits.EveryEditLands | apps/web/src/store/block-store.ts:125-318 | over every run of inserts, moves and leaf deletes, as long as positions are at most 41 long |
| LocalEdits.PlacedLandsIff | apps/web/src/store/block-store.ts:125-153 | over any positions, server ranks included: a block that is not its own neighbour lands where it was asked to go iff `midpoint` neither gives up nor overruns on its neighbours' positions |
| LocalEdits.LandingInIndex | apps/web/src/store/block-store.ts:93-119 | these places are adjacent entries of the index |
| LocalDepths.EditDepthsIff | apps/web/src/store/block-store.ts:216-318 | a local edit keeps depths equal to the numbers of ancestors iff it inserts, moves a leaf or within its level without a cycle, or deletes a leaf |
| LocalDepths.PromotionSpoilsDepths | apps/web/src/store/block-store.ts:267-272 | deleting a block with children always leaves a wrong depth |
| BlockStore.ApplyRemoteConcat | apps/web/src/store/block-store.ts:346-423 | two frames of operations in a row act like one frame with both |
| Replica.PatchShowsAsSpread | apps/api/app/ops/apply.py:201-206 | the server's merge that removes null keys and the client's overlay that keeps them show the same attributes |
| Replica.StepFollows | apps/web/src/store/block-store.ts:346-431 | one streamed operation keeps every server block on the client with the same parent, position, type, body and non-null attributes |
| Replica.ReplicaFollows | apps/web/src/store/block-store.ts:346-431 | so does every run whose stream comes in the order of the commits, despite cascade here and promotion there |
| Reordering.ReorderedFollows | apps/api/app/routes/blocks.py:101-155 | so does every run whose stream comes in any other order that keeps the operations on each single block in theirs, if no block is inserted again after its delete |
| Reordering.ReversedMovesIff | apps/api/app/routes/blocks.py:101-155 | two moves of one block that change places in the stream: the client follows iff they name the same parent and position |
| Reordering.ServerFolds | apps/api/app/ops/apply.py:229-535 | what the table has of a block is the fold of the streamed operations on that block alone |
| Reordering.ClientFolds | apps/web/src/store/block-store.ts:346-423 | what a client shows of a block is the same fold, except that a deleted parent may have been replaced by the root |
| RemoteDepths.StepDepthsFollowIff | apps/web/src/store/block-store.ts:358-394 | from equal depths, a streamed operation keeps them equal iff it moves no block to another level |
| RemoteDepths.DepthsFollowIff | apps/web/src/store/block-store.ts:358-394 | depths are equal throughout a run iff none of its moves changes the level |
| Replica.StepEqualIff | apps/web/src/store/block-store.ts:372-381 | equal views stay equal iff the operation deletes no block with children |
| Replica.ReplicaEqual | apps/api/app/routes/blocks.py:136-151 | on runs whose deletes hit leaves and whose stream comes in the order of the commits, both views are equal throughout |
| Replica.OtherDocument | apps/api/app/ops/apply.py:310-352 | operations on one document leave the view of another alone, cascades included |
| Replica.BatchFollows | apps/api/app/routes/blocks.py:136-151 | what one POST streams brings a following client up to date with the new table |
| Replica.NackFollowsIff | apps/web/src/store/block-store.ts:446-460 | a following client still follows after a nack iff every block it names, and the server has, is carried along as the server has it |
| Replica.BareNackFollowsIff | apps/ws/src/handlers/ops.ts:56-95 | after a nack without a block iff the server does not have that block |
| Versions.VersionIsLastSet | apps/web/src/store/block-store.ts:346-460 | over every interleaving of posts, echoes, acks, local edits and nacks, the client's version is the one set last: 1 by an insert, the server's plus one by an echoed attrs or content update, the reported one by an ack or nack |
| Versions.LeadOverRun | apps/web/src/store/block-store.ts:346-444 | over every such interleaving, while the block lives: the client's version minus the server's is 1 if an echoed update set it last, 0 if an echoed insert or an ack of an applied operation did, less one for every operation since then that raised the server's; minus the server's version if an acknowledged conflict did |
| Versions.LateAckIsBehind | apps/ws/src/handlers/ops.ts:44-99 | an ack puts the client behind by the number of operations that have raised the version since |
| Versions.LateReplyIsBehind | apps/api/app/routes/blocks.py:169-182 | two posted updates, both echoes, then the ack of the first: the client is one behind |
| Versions.ClientFollows | apps/web/src/store/block-store.ts:346-444 | with echoes in stream order and acks anywhere, the client follows the table of the operations that have arrived |
| Versions.ClientFollowsReordered | apps/web/src/store/block-store.ts:346-444 | and with echoes in any order that keeps each block's operations in theirs, once all have arrived |
| Versions.NextIsStaleOverRun | apps/api/app/ops/apply.py:310-491 | a delete, move or attrs update made after any such run, and reaching the server after any further events, is refused as stale iff the version set last when it was made is not the server's by then |
| Versions.AckedConflictStaysStale | apps/api/app/routes/blocks.py:123-134 | after any run, the ack of a conflict carries version 0, which makes the next checked operation on the block stale as well |
| Versions.EditKeepsVersion | apps/web/src/store/block-store.ts:216-333 | optimistic edits leave the versions of existing blocks alone |
| Streams.AboveMembers | apps/ws/src/replay.ts:102-103 | XRANGE with an exclusive bound returns exactly the entries above it |
| Replay.CompareDecides | apps/ws/src/replay.ts:41-51 | the three-way comparison decides the order of ids and is antisymmetric |
| Replay.ComputeFieldsMap | apps/ws/src/replay.ts:28-36 | the loop over pairs keeps the last value of a key and drops a key without value |
| Replay.FieldsMapIff | apps/ws/src/replay.ts:28-36 | a key has the value of its last pair, and there are no other keys |
| Replay.FrameIff | apps/ws/src/replay.ts:112-140 | a delta with block and text, and operations that parse, yield their frames, with the defaults "[]" and "0"; nothing else yields any |
| Replay.SkipsIff | apps/ws/src/replay.ts:112-115 | only a delta without block or text is passed over without moving the cursor |
| Replay.CursorIs | apps/ws/src/replay.ts:104-146 | the returned cursor is the id of the last entry not passed over so, or the given one |
| Replay.SendEntry | apps/ws/src/replay.ts:107-142 | one entry sends the frame its fields stand for, and nothing if they stand for none, and moves the cursor unless it is a malformed delta |
| Replay.RunReplay | apps/ws/src/replay.ts:69-147 | a detected trim sends the reload frame and closes; otherwise exactly the frames of the range are sent in order, then the cursor |
| Replay.ReplayCompleteIff | apps/ws/src/replay.ts:77-103 | a replay of the retained part is complete iff no frame above the cursor was trimmed |
| Replay.UntrimmedIsGapFree | apps/ws/src/replay.ts:83-103 | with a cursor other than 0-0 and no trim between the reads, an undetected trim means no gap |
| Replay.NeedlessReloadIff | apps/ws/src/replay.ts:83-94 | a reload is demanded with no entry above the cursor trimmed iff exactly the entries up to the cursor were; the replay would have been complete |
| Replay.SentinelLosesTrimmed | apps/ws/src/replay.ts:80-83 | the cursor 0-0 can lose a trimmed frame silently |
| Replay.FramesInOrder | apps/ws/src/replay.ts:107-143 | frames go out in strictly increasing id order |
| Replay.FramesAreThoseOfEntries | apps/ws/src/replay.ts:112-140 | a frame is sent iff the fields of some entry of the range stand for it |
| Replay.NothingBehindCursor | apps/ws/src/replay.ts:115-142 | above the returned cursor the log holds nothing that yields a frame, although malformed entries do not move it |
| Replay.ReplayResumes | apps/ws/src/replay.ts:104-146 | replaying later from the returned cursor and concatenating equals one replay from the original cursor |
| Sessions.InterruptedReplayIsSafe | apps/web/src/lib/ws.ts:136-140 | a replay cut short anywhere, or completed, loses nothing, whatever is appended before the reconnect |
| Sessions.CursorNext | apps/web/src/lib/ws.ts:136-146 | every frame with an id moves the cursor there, and a demand to reload drops it |
| Disconnects.BeforeReplayIff | apps/web/src/lib/ws.ts:136-146 | in every reached state, a disconnect before the replay loses for good exactly what was not sent live and lies below the last live frame |
| Disconnects.AfterReplayIff | apps/web/src/lib/ws.ts:136-146 | behind the replay, of what XRANGE found retained, exactly what was neither replayed nor sent live and lies below the last live frame sent since; what came before the replay does no harm |
| Disconnects.SettledReplayIff | apps/ws/src/server.ts:171-211 | with a settled subscription that is exactly what the instance has yet to broadcast, was not replayed, and was overtaken |
| Disconnects.OvertakenIsLost | apps/ws/src/server.ts:171-211 | from any reached state with a subscribed socket awaiting its replay, a run loses any entry it has not been sent |
| Disconnects.OvertakenBehindReplay | apps/ws/src/bus.ts:31-59 | and from any state behind the replay, any retained entry neither replayed nor sent live yet |
| Disconnects.LossIsReached | apps/ws/src/server.ts:160-211 | such a run from an idle instance: the first of two entries is lost |
| Rooms.RoomRegistry.Join | apps/ws/src/room.ts:51-66 | the socket is a member, and a SUBSCRIBE is issued iff the room was empty |
| Rooms.RoomRegistry.Leave | apps/ws/src/room.ts:72-85 | the socket is no member, and an UNSUBSCRIBE is issued iff the room became empty |
| Rooms.JoinIs | apps/ws/src/room.ts:51-66 | the socket is in, no other membership changes, and a SUBSCRIBE is issued iff nobody was in |
| Rooms.LeaveIs | apps/ws/src/room.ts:72-85 | the socket is out, and an UNSUBSCRIBE is issued iff the room had no other member |
| Rooms.RoomRegistry.BroadcastLocal | apps/ws/src/room.ts:94-103 | every open member but the excepted one gets the frame once |
| Rooms.LifecycleOverRuns | apps/ws/src/room.ts:51-85 | for any interleaving, the outstanding commands lead from the current channels to exactly the non-empty rooms |
| Rooms.DrainedIsSubscribed | apps/ws/src/room.ts:60-84 | once no command is outstanding, exactly the documents with a room are subscribed |
| Rooms.FailKeepsLifecycleIff | apps/ws/src/room.ts:60-84 | a rejected command leaves that right iff it would have changed nothing or a later one decides about its document |
| Handlers.StreamLog.XAdd | apps/ws/src/handlers/crdt.ts:56-70 | ids increase strictly |
| Handlers.HandleCrdt | apps/ws/src/handlers/crdt.ts:40-104 | an invalid delta or failed append changes nothing; otherwise one entry, one frame to the other open members, and one bus message unless the publish fails, which undoes nothing |
| Handlers.ReplayedAsSent | apps/ws/src/replay.ts:112-123 | a streamed delta replays as the very frame its peers got live |
| Handlers.OpsReplayedAsSent | apps/api/app/redis_bus.py:37-47 | streamed operations replay as the frame they were published in, iff their text parses |
| Handlers.OnBusMessage | apps/ws/src/bus.ts:31-59 | messages of the own instance and broken envelopes reach nobody, all others every open member once |
| Delivery.StepKeepsInv | apps/ws/src/server.ts:160-211 | every step of every instance keeps membership, subscriptions, queues and coverage right |
| Delivery.NoMissedEntry | apps/ws/src/server.ts:171-198 | in every reached state a socket replayed under a settled subscription has been sent, or will be, every wanted entry it did not send that was retained at XRANGE or is now |
| Delivery.LiveAtMostOnce | apps/ws/src/bus.ts:47-58 | live delivery is at most once, never to the sender, and never of what is still pending |
| Progress.PendingArrives | apps/ws/src/handlers/crdt.ts:92-100 | whatever is pending for a subscribed instance can be delivered: a run of handler steps and bus messages sends it to every open socket there but its own |
| Progress.DeltaIsPending | apps/ws/src/handlers/crdt.ts:53-100 | a socket that is ready can append a delta, which is its own and nobody else's, and pending for every instance |
| Progress.OpsArePending | apps/api/app/routes/blocks.py:153-182 | operations can be appended at any time, are no socket's own, and pending for every instance |
| Progress.WantedArrives | apps/ws/src/server.ts:171-198 | in every reached state, a socket with a settled replay has got, or some run brings it, every entry it wants that was retained |
| Progress.WaitEnds | apps/ws/src/room.ts:60-65 | the wait for the own SUBSCRIBE ends once the commands up to it are executed |
| Progress.ChecksIff | apps/ws/src/replay.ts:83-94 | a joined socket goes on to read iff its cursor is 0-0 or not below the first retained entry; otherwise it is closed |
| Progress.UncheckedGoesOn | apps/ws/src/replay.ts:95-99 | if XINFO fails it goes on to read in any case |
| Progress.ReplaysRetained | apps/ws/src/replay.ts:102-143 | and is then replayed exactly the entries above its cursor that yield a frame and are retained when it reads |
| Progress.TrimmedIsNotReplayed | apps/ws/src/replay.ts:102-103 | nothing below a trim is replayed to a socket that reads after it |
| Progress.CanStrand | apps/ws/src/server.ts:171-198 | until its handler has finished, a socket can always be stranded: by a break, and by a failing SUBSCRIBE or XRANGE when that is what it waits for |
| Progress.OthersQueueToo | apps/ws/src/room.ts:29-77 | joins and leaves of other documents can always interleave and only add commands of theirs to the queue |
| Delivery.FirstJoinerIsSettled | apps/ws/src/room.ts:60-65 | the socket that waited for its SUBSCRIBE is always replayed under a settled subscription |
| Delivery.SettledMissesNothing | apps/ws/src/server.ts:171-198 | whatever happens later, nothing goes past such a socket |
| Delivery.SettledIff | apps/ws/src/room.ts:57-79 | a socket about to read the stream will never miss an entry iff its subscription is active with no UNSUBSCRIBE outstanding |
| Delivery.ActiveSubscriptionIsNotEnough | apps/ws/src/room.ts:57-79 | a reachable state with an active subscription from which an entry can be missed |
| Delivery.InRoomIff | apps/ws/src/server.ts:160-262 | in every reached state a socket is in its room iff it is open or has no close listener yet |
| Delivery.StrandedIff | apps/ws/src/server.ts:171-211 | an open socket becomes closed without a close listener iff its connection breaks before the handler has finished, its SUBSCRIBE is rejected, its replay detects a trim, or its XRANGE fails |
| Delivery.StrandedForGood | apps/ws/src/server.ts:198-211 | such a socket stays in its room on every later run, and its instance never issues another UNSUBSCRIBE for the document |
| Delivery.DroppedIsStranded | apps/ws/src/server.ts:171-211 | a run that reaches such a state from an idle instance, with the channel subscribed for nobody else |
| Delivery.RejectedForGood | apps/ws/src/room.ts:51-66 | after a rejected SUBSCRIBE, no later run changes whether the instance is subscribed to the document |
| Delivery.AfterRejectionIff | apps/ws/src/room.ts:57-65 | a socket that reads the stream there at any later time never misses an entry iff the channel was subscribed when the SUBSCRIBE was rejected |
| Delivery.FailedIsRejected | apps/ws/src/server.ts:171-177 | a run with a rejected SUBSCRIBE on an idle instance, after which no run subscribes the channel there |
| Delivery.ReplayedFrames | apps/ws/src/replay.ts:102-143 | what the interleaved model marks as replayed is what runReplay sends |
| Worker.OperationConsumer.ApplyCrdtDelta | apps/api/app/consumer/worker.py:211-264 | a missing row or a failing library call raises and changes nothing; a covered id changes nothing; otherwise state, content and watermark move together |
| Worker.OperationConsumer.HandleEntry | apps/api/app/consumer/worker.py:192-209 | ops, unknown and malformed entries succeed without effect, all others are handled as deltas |
| Worker.EffectIs | apps/api/app/consumer/worker.py:237-264 | a delta that takes effect sets the state the library returns, the children read off it without attributes, and its id as watermark, in its own row only |
| Worker.NoEffectIs | apps/api/app/consumer/worker.py:226-240 | any other delta is acknowledged if covered, and otherwise left unacknowledged, all rows as they were |
| Worker.OthersAreAcked | apps/api/app/consumer/worker.py:195-207 | an entry of operations, of unknown kind, or malformed is acknowledged and leaves all rows as they were |
| Worker.OperationConsumer.HandleBatch | apps/api/app/consumer/worker.py:147-161 | exactly the entries that did not raise are acknowledged, and a failure does not stop the batch |
| ConsumerGroups.Redis.XReadGroup | apps/api/app/consumer/worker.py:127-139 | reading with `>` hands out the next entries of each known stream, at most 50, and moves the group past them; an error hands out nothing |
| ConsumerGroups.ReadsInOrder | apps/api/app/consumer/worker.py:127-133 | a read hands out the oldest entries not handed out yet, fifty or all there are, and the next one goes on behind them |
| Worker.OperationConsumer.HandleReply | apps/api/app/consumer/worker.py:144-161 | a reply is handled batch by batch up to the first unexpected stream key |
| Worker.OperationConsumer.ReadOnce | apps/api/app/consumer/worker.py:122-161 | one pass reads the next entries of all known streams, which count as handed out either way, and is the run of their deliveries up to the first unexpected key; an error forgets the streams |
| Worker.RowIsItsLife | apps/api/app/consumer/worker.py:211-264 | with any consumers, redeliveries and crashes, a row's state is the fold of exactly the deltas that took effect in its life, ids strictly increasing, the last one the watermark |
| Worker.AllEffectiveIff | apps/api/app/consumer/worker.py:237-240 | every handled delta took effect exactly once iff their ids strictly increase and none raises |
| Worker.AckedWhenCovered | apps/api/app/consumer/worker.py:151-161 | an acknowledged delta is at or below the watermark; one that raises is not acknowledged |
| Worker.AckedStaysCovered | apps/api/app/consumer/worker.py:237-264 | it stays so for the rest of the row's life |
| Worker.ContentShowsState | apps/api/app/consumer/worker.py:246-264 | from a delta that takes effect on, the content is the children read off the state, without attributes, until the row is deleted or the REST route writes its content |
| BlockContent.AttrsSurviveIff | apps/api/app/consumer/crdt.py:96-105 | attributes set by update_attrs are still there iff no delta of the block has taken effect since; otherwise there are none |
| Base64.RoundTrip | apps/web/src/lib/base64.ts:5-23 | decoding the text of any bytes gives the bytes back |
| Base64.Vectors | apps/web/src/lib/base64.ts:14-15 | the short test vectors of section 10 of RFC 4648, and the characters for 62 and 63 |
| Base64.LongVectors | apps/web/src/lib/base64.ts:14-15 | the other three |
| BlockContent.StreamedIsDelta | apps/ws/src/handlers/crdt.ts:56-70 | what an instance appends is a delta for the block it names; it is the base64 text, never the bytes themselves |
| BlockContent.TextAppliesIff | apps/api/app/consumer/worker.py:245-246 | unless the library accepts the base64 text of some bytes as a first delta, no run of streamed deltas acknowledges any of them or changes a row; if it does, some run changes one |
| Worker.AllHandledIff | apps/api/app/consumer/worker.py:237-240 | with the row present throughout, every handled delta of a block takes effect, once and in order, iff their ids increase and none raises; state and watermark are then theirs |
| Consumers.HandledOnce | apps/api/app/consumer/worker.py:122-133 | however many consumers read new entries, die and interleave, no entry is handled twice |
| Consumers.TookEffectIff | apps/api/app/consumer/worker.py:211-264 | an entry takes effect in a run iff at its single delivery it is a delta, its row is present, its id is not covered and the library accepts it |
| Consumers.NeverRetried | apps/api/app/consumer/worker.py:226-235 | what was handed out, is in nobody's hands and did not take effect never will, on any continuation |
| LostEntries.TooEarlyIsLost | apps/api/app/consumer/worker.py:226-235 | a delta handled before its block is inserted stays unacknowledged and never takes effect, on any continuation |
| Consumers.PassesHandlePrefix | apps/api/app/consumer/worker.py:122-161 | passes of a lone reader that cover the first k entries have handled exactly the block's deltas among them, in order |
| Consumers.LoneReaderAppliesAll | apps/api/app/consumer/worker.py:122-161 | of the part of the log a lone reader has handled, with the row present, every delta of the block takes effect exactly once and in stream order iff the library accepts them in turn; the state is their fold and the watermark the last of them |
| Consumers.PassIsMoves | apps/api/app/consumer/worker.py:122-161 | a pass of `_read_once` is a read of the next entries followed by the handling of each |
| Worker.LateEntryIsLost | apps/api/app/consumer/worker.py:237-240 | a lower id handled after a higher one is acknowledged and changes nothing |
| LostEntries.CrossedIsLost | apps/api/app/consumer/worker.py:122-161 | two consumers that read one delta each, the second handled first: the first is acknowledged and never takes effect, on any continuation |

## Left out

- Length limits of the columns (`VARCHAR(64)`, `SMALLINT`) and the aborted transaction after a failed INSERT: positions and depths are unbounded, and a refused operation is a conflict.
- Concurrent transactions and advisory locks: each operation is one atomic step.
- ApplyOps.DocBlocks.PostOperations: a failing `record_operation` is not modelled.
- BlockStore.Store.HandleNack: a reported current block is stored under the conflict's id, because a block has no id field of its own here.
- Collations other than byte order: positions are compared by character codes on both sides.
- Iteration order of JavaScript maps: the proofs hold for any order, which blocks with equal positions keep, so theirs is not fixed.
- Flatten.FlattenBlocks: is stated for the index of a block map, which every store action maintains; the guard for ids missing from the map is then never taken.
- Replica.ReplicaFollows: relates parent, position, type and content up to attributes set to null; versions and depths differ as `Versions` and `RemoteDepths` say, and text changed by deltas reaches clients over the crdt channel.
- Versions.ClientFollows: leaves out the optimistic edits of the client itself, until whose echoes it shows something else; versions are followed through them.
- LocalEdits.PlacedLandsIff: leaves out a move of a block next to itself, whose own position bounds the new one.
- Disconnects.BeforeReplayIff: replays the whole log on reconnect; what a trim loses is the matter of `Replay`.
- The GET of blocks with its cursor, which are read one after the other: replicas start from an equal or following state.
- Delivery.NoMissedEntry: assumes that a publish reaches Redis, a failed one being only logged by the source, and that the subscriber connection does not drop subscriptions.
- Delivery.StepKeepsInv: follows one document; other documents appear as arbitrary room events of the instance that do not touch it.
- Messages a client sends before its replay has finished, for which no listener exists yet.
- Parsing of URLs, stream ids, channel names and numbers, JSON and schema checks: ids are numbers, and parsers are parameters.
- Yjs and its Python binding: a delta is opaque, and applying it and extracting content are parameters; a failing call is modelled.
- Worker.OperationConsumer.ReadOnce: discovery of streams, waiting for entries and the stop signal are not modelled; a trimmed stream keeps its old entries here, and a failing XACK is a crash.
- Awareness, heartbeats, reconnect timers, upgrade decisions and logging.
- `evenly_spaced` and `needs_rebalance`, which no code calls.
- Editor components, image and user routes, seeds and configuration.
