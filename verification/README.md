# opaquedb, verified

A Dafny model of the parts of opaquedb where a small mistake would return wrong rows: the encrypted matcher and the
client that decodes it, sharding, leader election over leases, the epoch store, the on-disk formats, and the SQL path
from the text a user types to the match the engine runs and the rows that come back.

The model follows the code. Loops are loops, objects whose methods change their fields are classes, and each such method
is proved against a function or predicate on values; the properties are then proved about those.

* `Seal`, `SlotCodec`, `KeyCodec`, `Placement`, `Indicator`, `BlockSum`, `Matcher`, `Evaluation`, `Combining`,
  `QueryMeaning`, `QueryPath`: a query as slotwise arithmetic on ciphertexts, from operand encryption to decoded buckets,
  refined down from the plain filter "the key is in the list" (or, for `<>`, is not).
* `Sharding`, `ShardRing`: exact counts, complete point queries, and tables split over nodes by consistent hashing.
* `Geometry`: the configuration check, tied to the preconditions of everything above.
* `Etcd`, `Election`, `ClusterMap`: the lease store, nodes that interleave at single store calls and single field writes,
  and the shard map a leader publishes.
* `EpochStore`: publish, insert, rollback and prune as file steps with a crash or an I/O error between any two of them,
  and with renames that take effect although the directory sync behind them fails.
* `Crc`, `LittleEndian` (with `RowFormat`), `Segment`, `Wal`, `RecordCodec`: byte formats.
* `Tokenizer`, `Lifting`, `Parser`, `LiftedStatement`, `Gluing`, `ClientQuery`, `GluedQuery`, `LogicalPlan`: literals
  lifted out of a query, the template the server parses or refuses, and the plan made of it.
* `TextToRows`: all of it put together, from a typed query over stored records to the records that come back.
* `RateLimit`: token buckets over real numbers.
* `Base`: results, powers of two, remainders and finite sums.

Things the proofs turned up, each stated as a lemma:

* A point query collides exactly when its key has more rows than buckets or rows on two shards
  (`Sharding.PointQueryComplete`); equal keys on two shards collide for any number of buckets.
* The summed indicator is the filter exactly when no operand repeats (`QueryMeaning.TruthNeedsDistinct`). The client
  removes repeated operands while the plan counts every listed value, so a value listed twice, as in `IN (5, 5)`, is
  refused for its operand count (`TextToRows.RepeatedIsRefused`, `TextToRows.LiteralOperandsAgree`,
  `QueryPath.CheckedOperands`).
* A template is read back as intended exactly when no lifted literal is glued to a following letter or underscore
  (`ClientQuery.TemplateReadsBack`). A glued template is refused, never misread (`ClientQuery.GluedIsRefused`), and there
  are such queries (`GluedQuery.GluedQueryHappens`).
* The client encodes a value by its own type and not by the column's, so a text searched for on an INTEGER column meets
  the number its hash happens to be (`TextToRows.TextMeetsNumber`); numbers on INTEGER columns are exact
  (`TextToRows.NumbersApart`).
* After a crash between the rename of an epoch directory and the switch of CURRENT, or after a rollback to any but the
  newest version, every publish is refused until a rollback to the newest version (`EpochStore.BehindIsReached`,
  `EpochStore.PublishIffNewest`, `EpochStore.BehindStaysBehind`).
* An insert can be there without having been acknowledged: after a crash while it prunes, or when the directory sync
  behind the rename of CURRENT fails. Nothing else separates the added rows from the acknowledged ones
  (`EpochStore.InsertsAppend`, `EpochStore.AckedAreAdded`).
* The election is safe because a renewal only fails when its lease is gone; a renewal error that leaves the lease in
  place would allow two live leaders (`Election.LostRenewalSplits`), and so would starting a manager again whose
  revocation got lost (`Election.RestartIsLostRenewal`). The leader flag alone may be stale
  (`Election.LeadershipPassesOn`).
* The shared token bucket refuses nobody whom their own bucket admits as long as there are no more than 64 principals
  (`RateLimit.SharedNeverRefuses`); the 65th can be refused (`RateLimit.SixtyFifthIsRefused`).

Where comments and code differ the model follows the code: an unset LIMIT means 10 rows (`QueryPath.RowWindow`), although
the headers of the parser and of the logical plan speak of one.

Assumptions the model makes explicit as preconditions: a batching plaintext modulus larger than twice the degree and of
the configured size; a leader key different from the shard-map and epoch keys; one manager per node id, not started again
after a lost revocation; a store in which no node is named leader before it starts; rollbacks that do not overlap a writer.

## Model

| member | source | states |
|---|---|---|
| `SlotCodec.PackBytesToSlots` | src/core/slot_codec.cpp:30-49 | Fails exactly for a slot width outside 1..7; otherwise the slots are the little-endian integers of consecutive groups of bytes, as many as the rounded-up quotient. |
| `SlotCodec.UnpackSlotsToBytes` | src/core/slot_codec.cpp:51-76 | Fails exactly for a slot width outside 1..7 or too few slots; otherwise gives exactly the asked number of bytes, each the right digit of its slot. |
| `SlotCodec.RoundTrip` | src/core/slot_codec.cpp:30-76 | Unpacking packed bytes gives the bytes back for every input and width 1..7, whatever slots follow. |
| `SlotCodec.PlanesCoverRecord` | src/core/include/opaquedb/core/slot_codec.h:36-46 | The plane count is the least one whose planes hold the whole record. |
| `SlotCodec.RequiredGaloisSteps` | src/core/slot_codec.cpp:12-28 | The list holds exactly plus and minus every power of two below the key size and every doubling of the key size below the row, and is empty for degenerate sizes. |
| `KeyCodec.KeyToBits` | src/core/key_codec.cpp:58-64 | Bit b of the list is bit b of the value, lowest first. |
| `KeyCodec.BitsDetermineKey` | src/core/key_codec.cpp:58-64 | Two keys of the universe are equal exactly when all their bits agree. |
| `Placement.MakeLayoutValid` | src/backend/reference/reference.cpp:144-171 | The divisions that compute segment and stride from checked parameters give a consistent layout. |
| `Placement.Layout.RegionsDisjoint` | src/backend/reference/reference.cpp:168-171 | A slot belongs to the region of at most one bucket and one slot row. |
| `Placement.BucketWraps` | src/backend/reference/reference.cpp:183-191 | The 32-bit wrap-around of the mixed key and of the per-key counter never changes the bucket. |
| `Placement.PlaceRows` | src/backend/reference/reference.cpp:181-201 | The placement loop gives, batch by batch, row r to the block that its key ordinal and its bucket occupancy determine. |
| `Placement.SlotInRegion` | src/backend/reference/reference.cpp:192-196 | Every row lands on a block boundary inside its own bucket region, with room for the whole block. |
| `Placement.SlotsDistinct` | src/backend/reference/reference.cpp:181-201 | Two different rows never share batch and slot. |
| `Placement.PlacedBatchOk` | src/backend/reference/reference.cpp:181-201 | Every batch holds known rows in table order on pairwise distinct block boundaries. |
| `Placement.NoGap` | src/backend/reference/reference.cpp:193-199 | A row goes to an open batch or to the next one, never further. |
| `Placement.NoEmptyBatch` | src/backend/reference/reference.cpp:193-199 | No batch is ever empty, so no occupancy mask is all zero. |
| `Indicator.Log2` | src/backend/reference/reference.cpp:48-53 | The least exponent whose power of two reaches n; exact for powers of two. |
| `Indicator.EncryptOperand` | src/crypto/ops.cpp:61-73 | Every slot of an operand holds the bit of the value that its position inside a block asks for. |
| `Indicator.EqualityIndicator` | src/backend/reference/reference.cpp:287-302 | After the square and the AND levels slot x is 1 exactly when the operand agrees with the stored bits on the window from x, wrapping inside its slot row, at depth 1 + levels. |
| `Indicator.LayKeys` | src/backend/reference/reference.cpp:265-276 | Key slots hold every placed key in its block and zero elsewhere; the mask is 1 exactly at occupied block starts. |
| `Indicator.UnionIndicator` | src/backend/reference/reference.cpp:308-312 | Each slot is the residue of the number of operands that agree there, at the depth of one operand. |
| `Indicator.MaskAndFlip` | src/backend/reference/reference.cpp:319-329 | Occupied starts keep the count or, for the inequality operator, one minus it; every other slot becomes 0. |
| `Indicator.Broadcast` | src/backend/reference/reference.cpp:330-338 | Every slot of a block ends with the value of its own block start and of no other, without using depth. |
| `Indicator.MatchIndicator` | src/backend/reference/reference.cpp:265-338 | Every slot of an occupied block holds the match indicator of its row and every slot of an empty block holds 0, also for a query for value 0; depth is 1 + log2 of the key size whatever the number of operands. |
| `Indicator.DistinctMultiplicity` | src/crypto/ops.cpp:94-111 | With distinct operands a key equals at most one of them. |
| `BlockSum.SumBlocks` | src/backend/reference/reference.cpp:384-394 | The doubling sum leaves in every slot the cyclic sum of the blocks of one bucket width, without using depth. |
| `BlockSum.RegionIsItems` | src/backend/reference/reference.cpp:384-394 | Summing the blocks of a bucket region is summing the values of the rows placed there. |
| `BlockSum.SummedSlot` | src/backend/reference/reference.cpp:384-394 | At a bucket start the cyclic sum is the sum over exactly the rows of that bucket and side: nothing wraps in from elsewhere. |
| `Matcher.LayPayload` | src/backend/reference/reference.cpp:343-365 | The payload plaintext holds, in each row block, the slots of that plane of the record, and zero everywhere else; it fails only for a slot width above 7. |
| `Matcher.AddPayloadPlane` | src/backend/reference/reference.cpp:343-396 | Adding a plane, or skipping it when it is all zero, advances the plane accumulator by exactly the value of the batch. |
| `Matcher.AddPresence` | src/backend/reference/reference.cpp:398-407 | Adding presence advances the presence accumulator by the number of matches of the batch. |
| `Matcher.ProcessBatch` | src/backend/reference/reference.cpp:256-413 | One batch advances every plane and the presence plane by exactly what its rows contribute, at unchanged depth. |
| `Evaluation.TotalIsRows` | src/backend/reference/reference.cpp:181-201 | Summing over batches is summing over rows, bucket by bucket and side by side: placement loses and repeats nothing. |
| `Evaluation.SharesPartition` | src/backend/reference/reference.cpp:429-454 | The round-robin shares of any positive number of workers add up to all batches. |
| `Evaluation.RunBatches` | src/backend/reference/reference.cpp:415-456 | For every thread count, hardware report 0 included, every slot that is read out, the first block of each bucket in both slot rows, holds the residue of what all batches contribute. |
| `Evaluation.Evaluate` | src/backend/reference/reference.cpp:106-461 | Refused operators, unequal columns and bad geometry give their errors; an accepted call on a non-empty table leaves in every readable slot the residue of the row contributions, at depth 1 + log2 of the key size. |
| `Combining.Combine` | src/backend/reference/reference.cpp:463-518 | Fails exactly when two non-empty shards disagree on the plane count; otherwise plane i is the slotwise sum of the shards. |
| `Combining.WindowIsClamp` | src/crypto/ops.cpp:185-190 | The clamped window is exactly the buckets from the offset on, at most the limit many. |
| `Combining.ReadRecord` | src/crypto/ops.cpp:208-217 | The record bytes are the unpacked planes one after the other, cut or zero-filled to the record size. |
| `Combining.DecryptResults` | src/crypto/ops.cpp:124-221 | The error conditions, and for every bucket of the window count, presence, collision and record as read from both slot rows of its first blocks. |
| `QueryMeaning.WeightIsMatch` | src/backend/reference/reference.cpp:304-329 | With distinct operands the indicator is the truth value of the filter, for both operators. |
| `QueryMeaning.TruthNeedsDistinct` | src/crypto/ops.cpp:94-101 | Below the plaintext modulus, the summed indicators are the filter for every key exactly when no operand repeats. |
| `QueryMeaning.PresenceCounts` | src/backend/reference/reference.cpp:398-407 | The presence plane of a bucket counts its matching rows. |
| `QueryMeaning.NoMatchNoBytes` | src/backend/reference/reference.cpp:242-247 | A bucket without a match holds zero in every plane. |
| `QueryMeaning.OneMatchItsBytes` | src/backend/reference/reference.cpp:384-395 | A bucket with one match holds exactly the slots of that row in every plane. |
| `QueryPath.BuildEncryptedOperands` | src/crypto/ops.cpp:84-122 | Fails exactly for an empty list or a key size outside 1..64; otherwise one tiled operand per distinct value, in order of first occurrence. |
| `QueryPath.DedupKeepsAll` | src/crypto/ops.cpp:102-111 | The client keeps as many operands as it was given values exactly when the values are distinct. |
| `QueryPath.CheckedOperands` | src/server/engine.cpp:281-303 | The server accepts the operand list exactly when its size is the planned one and in 1..64. |
| `QueryPath.LayoutStride` | src/core/include/opaquedb/core/slot_codec.h:48-59 | The stride at which evaluation leaves the buckets is the stride at which the client reads them. |
| `QueryPath.DecodedBucket` | src/crypto/ops.cpp:193-219 | A bucket with fewer matches than the plaintext modulus decodes to its exact match count, and with one match to that row, byte for byte. |
| `QueryPath.RunQuery` | src/client/query_client.cpp:364-370 | Encrypt, evaluate every shard, combine and decrypt: the query succeeds when the operand count is the planned one, and every bucket tells the truth. |
| `QueryPath.CollectClean` | src/client/query_client.cpp:328-344 | The records of the present buckets that did not collide, in order, and the number of collided ones. |
| `QueryPath.RowWindow` | src/client/query_client.cpp:372-382 | LIMIT and OFFSET count rows: the result is that stretch of the clean rows, 10 rows when no limit is given. |
| `QueryPath.QueryCount` | src/client/query_client.cpp:418-424 | The sum of the bucket counts. |
| `Sharding.CountIsExact` | src/client/query_client.cpp:418-424 | With fewer matches than the modulus, the bucket counts add up to the exact number of matching rows, whatever collides and however the rows are split. |
| `Sharding.CleanIsComplete` | src/client/query_client.cpp:328-344 | For any query on any split: as multisets, the clean records never exceed the records of the matching rows, and without collisions they are exactly those. |
| `Sharding.Pigeonhole` | src/backend/reference/reference.cpp:173-180 | Up to d consecutive ordinals fall into different buckets of d; d + 1 of them do not. |
| `Sharding.KeyWalks` | src/backend/reference/reference.cpp:173-191 | The rows of one key walk the buckets one by one from the mixed key. |
| `Sharding.PointQueryComplete` | src/backend/reference/reference.cpp:173-180 | A point query is free of collisions exactly when the rows of the key are all on one shard and are no more than the buckets, and then the clean records are, as a multiset, the records of those rows. |
| `Sharding.OtherKeysCollide` | src/backend/reference/reference.cpp:154-180 | A key with more rows than buckets, or with rows on two shards, always collides in the bucket of its first row. |
| `Sharding.ShardedIsUnsharded` | src/backend/reference/reference.cpp:463-518 | When equal keys share a shard, every slot of every bucket sums over the shards to what the unsharded table gives. |
| `Sharding.SplitKeepsMatches` | src/client/query_client.cpp:418-424 | Under any split of the rows the shards together hold exactly the matches of the whole table. |
| `Sharding.ShardingDoesNotShow` | src/backend/reference/reference.cpp:463-518 | A client sees the same counts, presence, collisions and clean records from a table split by key as from the table on one node. |
| `Geometry.BitTestIsPowerOfTwo` | src/config/loader.cpp:221-221 | The bit test accepts exactly the powers of two. |
| `Geometry.Validate` | src/config/loader.cpp:380-464 | Accepts exactly the configurations whose degree, modulus bits, primes, key size, depth, buckets and record size satisfy the listed conditions. |
| `Geometry.BytesPerSlot` | src/config/include/opaquedb/config/config.h:148-156 | The slot width is the largest number of whole bytes below the plaintext bits, but at least 1 and at most 7. |
| `Geometry.SlotsHoldBytes` | src/config/include/opaquedb/config/config.h:146-156 | A batching plaintext modulus of the configured size holds the bytes packed into a slot. |
| `Geometry.AcceptedGeometry` | src/config/loader.cpp:415-461 | An accepted configuration passes every geometry check of evaluation and decoding, and its multiplications fit the prime chain. |
| `Geometry.AnswerQuery` | src/config/loader.cpp:380-464 | On an accepted configuration, with the Galois keys the client generates, a query is answered exactly when its distinct operands are as many as planned, 1..64, and every bucket then tells the truth. |
| `Etcd.FakeEtcd.PurgeExpired` | src/cluster/fake_etcd.cpp:11-27 | Afterwards exactly the unexpired leases and the keys not under an expired lease are left. |
| `Etcd.FakeEtcd.LeaseGrant` | src/cluster/fake_etcd.cpp:29-37 | A positive time to live gives the next id and an expiry; anything else is refused and changes nothing. |
| `Etcd.FakeEtcd.LeaseKeepAlive` | src/cluster/fake_etcd.cpp:39-48 | Renews exactly a lease that survives the purge, else reports it missing. |
| `Etcd.FakeEtcd.LeaseRevoke` | src/cluster/fake_etcd.cpp:50-61 | The lease and exactly its keys are gone. |
| `Etcd.FakeEtcd.Put` | src/cluster/fake_etcd.cpp:63-72 | Writes exactly when the lease is 0 or survives the purge. |
| `Etcd.FakeEtcd.CreateIfAbsent` | src/cluster/fake_etcd.cpp:102-114 | Writes exactly when the key is absent after the purge and the lease is usable, and reports which. |
| `Etcd.FakeEtcd.AdvanceTime` | src/cluster/fake_etcd.cpp:116-120 | Moves the clock and purges. |
| `Etcd.NothingToPurge` | src/cluster/fake_etcd.cpp:11-27 | Because the clock only moves with a purge, every other purge finds nothing to do. |
| `Etcd.OperationsKeepStoreOk` | src/cluster/fake_etcd.cpp:29-120 | Every operation keeps leases unexpired and issued, and every leased key tied to a lease that is there. |
| `Election.ClashIsByName` | src/cluster/manager.cpp:17-38 | A key hung off the base equals the leader key exactly when the last segment of the leader key is its name. |
| `Election.MemberKeyIsNotLeaderKey` | src/cluster/manager.cpp:30-32 | No node id can make a member key the leader key. |
| `Election.ActKeepsInv` | src/cluster/manager.cpp:40-118 | Every single store call, field write, failed call (a lost revocation included), epoch write and clock advance of any node keeps the invariant. |
| `Election.OneLiveLeader` | src/cluster/manager.cpp:40-118 | In every run of any interleaving at most one node with a live lease believes it leads, and the leader key then names it under that lease. |
| `Election.PublishesMembership` | src/cluster/manager.cpp:95-116 | A leader that is left alone ends with the shard map of the current members as the one it published last; it writes that text to the shard-map key, and nothing else, exactly when it differs from the one before. |
| `ClusterMap.PublishedIsMembership` | src/cluster/shard_map.cpp:50-60 | What a leader published after an undisturbed tick parses back to exactly the member ids if and only if no id is empty or has a line break. |
| `Election.TickSettles` | src/cluster/manager.cpp:58-118 | An undisturbed tick registers the node under a live lease and makes it leader exactly when the key was free or already its own; otherwise the key is untouched. |
| `Election.LeadershipPassesOn` | src/cluster/manager.cpp:40-93 | Once the lease of the leader has run out the next node to tick leads, while the flag of the old one may stay up without a live lease. |
| `Election.LostRenewalSplits` | src/cluster/manager.cpp:40-56 | If a renewal could fail while its lease is still there, two nodes with live leases would both lead: the election relies on renewal errors meaning a lost lease. |
| `Election.RestartIsLostRenewal` | src/cluster/manager.cpp:194-208 | A manager started again after a lost revocation goes on exactly like one whose renewal got lost, so it would split leadership too. |
| `Election.ClusterManager.EnsureLease` | src/cluster/manager.cpp:40-56 | Does what the step system does from the start of a tick to registration, or to the end when no lease is granted. |
| `Election.ClusterManager.Tick` | src/cluster/manager.cpp:58-118 | The tick as written is the tick of the step system with nobody in between. |
| `Election.ClusterManager.Stop` | src/cluster/manager.cpp:194-208 | Stopping as written is the stop of the step system with nobody in between. |
| `EpochStore.VictimsAreOldest` | src/storage/local_repository.cpp:248-273 | Pruning takes the oldest versions: whatever is kept is newer than whatever goes. |
| `EpochStore.ActKeepsInv` | src/storage/local_repository.cpp:70-162 | Every file step, crash, I/O error and failed directory sync after a rename keeps the invariant of the store. |
| `EpochStore.AlwaysReadable` | src/storage/local_repository.cpp:70-274 | However operations are cut off, the versions are contiguous, only the oldest can have lost files, CURRENT names a complete epoch once set, and every epoch holds the rows it was published with. |
| `EpochStore.OnlyTheSwitchShows` | src/storage/local_repository.cpp:155-161 | What opening CURRENT yields changes only at the rename of CURRENT, and then to all rows of the new version; for an insert to the old rows plus the new one. |
| `EpochStore.PublishIffNewest` | src/admin/service.cpp:50-61 | A publish is accepted exactly when CURRENT is the newest version or nothing was published; an insert also needs a CURRENT. |
| `EpochStore.BehindStaysBehind` | src/storage/local_repository.cpp:84-88 | A store whose CURRENT is behind its newest version refuses every publish and insert and stays as it is until a rollback. |
| `EpochStore.CrashLeavesBehind` | src/storage/local_repository.cpp:155-161 | From any idle store at its newest version, a load that crashes between the rename of its directory and the switch of CURRENT leaves the store behind. |
| `EpochStore.RollbackLeavesBehind` | src/storage/local_repository.cpp:240-246 | A completed rollback shows the rows of its version and leaves the store behind exactly when the version is not the newest. |
| `EpochStore.BehindIsReached` | src/storage/local_repository.cpp:155-161 | A new store gets behind by a first load that crashes there, and by two loads and a rollback. |
| `EpochStore.RollbackToNewestHelps` | src/storage/local_repository.cpp:240-246 | The newest version can always be opened; a rollback to it completes, shows its rows and lets publishes through again. |
| `EpochStore.InsertsAppend` | src/server/ingest.cpp:173-271 | Over any run of inserts, crashes, I/O errors and failed syncs, readers see the rows there were, then exactly the rows of the inserts that switched CURRENT, in order, one version each; the acknowledged rows are those of the inserts not cut off after the switch and not still pruning. |
| `EpochStore.AckedAreAdded` | src/server/ingest.cpp:173-271 | Without a crash or a failed sync, whatever else fails, the rows added are exactly the acknowledged rows. |
| `EpochStore.LocalEpochRepository.SetCurrent` | src/storage/local_repository.cpp:70-77 | CURRENT names the version, nothing else on disk changes, and readers see the rows recorded for it. |
| `EpochStore.LocalEpochRepository.Publish` | src/storage/local_repository.cpp:79-162 | For any version: refuses an existing one without a change; otherwise the complete new version is the only change to the versions, CURRENT names it and readers see its rows. The next version keeps the invariant and is the newest. |
| `EpochStore.LocalEpochRepository.Rollback` | src/storage/local_repository.cpp:240-246 | Succeeds exactly for a complete version and then shows the rows it was published with; otherwise nothing changes. |
| `EpochStore.LocalEpochRepository.Prune` | src/storage/local_repository.cpp:248-274 | For any number to keep: removes exactly the oldest versions beyond it, none when it is 0, and changes nothing a reader sees. |
| `EpochStore.LocalEpochRepository.InsertRowAndPublish` | src/server/ingest.cpp:173-271 | Fails without a change, and with the right error, exactly when CURRENT cannot be opened, the cells cannot be encoded or the store is behind; otherwise the row is appended and version and row count are returned. |
| `Tokenizer.Tokenize` | src/sql/tokenizer.cpp:70-232 | The scanning loop yields the tokens of the lexical definition, within the length and token limits, and fails exactly otherwise. |
| `Tokenizer.ScanLexeme` | src/sql/tokenizer.cpp:89-223 | The lexeme scanned in place is the first lexeme of the remaining text. |
| `Tokenizer.ScanString` | src/sql/tokenizer.cpp:136-160 | A literal ends at the matching quote; unterminated ones and contents above 256 characters are refused. |
| `Lifting.ParameterReadBack` | src/sql/tokenizer.cpp:115-134 | A parameter in a template is read back as itself exactly when what follows does not go on with an identifier character. |
| `Lifting.TemplateWords` | src/sql/parser.cpp:344-418 | Lexing the template gives the words of the source with the i-th lifted literal as its parameter exactly when no lifted literal is directly followed by a letter or underscore. |
| `Lifting.CollectLiterals` | src/sql/parser.cpp:363-376 | The literals to lift, in order: all of them except a number behind LIMIT or OFFSET. |
| `Lifting.Splice` | src/sql/parser.cpp:405-416 | Splicing from the last literal to the first equals substituting all of them at once. |
| `Parser.Cursor.IdentifierName` | src/sql/parser.cpp:131-138 | Reads an identifier as the grammar function does, never moving past the end marker. |
| `Parser.Cursor.Param` | src/sql/parser.cpp:158-178 | Reads a string, a number in 64-bit range or a bound parameter, as the grammar function does. |
| `Parser.Cursor.InList` | src/sql/parser.cpp:287-305 | Reads a parenthesized list of at least one value, as the grammar function does. |
| `Parser.Cursor.Comparison` | src/sql/parser.cpp:250-285 | Reads one comparison, IN, LIKE or BETWEEN term, as the grammar function does. |
| `Parser.Cursor.OrTerm` | src/sql/parser.cpp:235-247 | AND binds tighter than OR and associates to the left. |
| `Parser.Cursor.Predicate` | src/sql/parser.cpp:220-232 | OR of AND terms, associating to the left. |
| `Parser.Cursor.ColumnList` | src/sql/parser.cpp:183-199 | Projected columns with the names they are shown under. |
| `Parser.Cursor.OrderList` | src/sql/parser.cpp:202-217 | ORDER BY terms, ascending unless DESC. |
| `Parser.Cursor.Tail` | src/sql/parser.cpp:76-105 | ORDER BY, LIMIT of at least 1, OFFSET, and nothing behind. |
| `Parser.Cursor.StatementClause` | src/sql/parser.cpp:31-107 | The recursive-descent parser computes the grammar function and never reads past the end marker. |
| `LiftedStatement.LiftWordsAt` | src/sql/parser.cpp:391-416 | Word i of the lifted text is the source word, or the parameter numbered by the lifted literals before it. |
| `LiftedStatement.LiftedPredicate` | src/sql/parser.cpp:220-328 | A filter parses from the lifted words as itself with its literals lifted in order, ending at the same word. |
| `LiftedStatement.LiftedWordsParse` | src/sql/parser.cpp:344-418 | The lifted words parse to the statement with its literals turned into parameters and projection, table, predicate shape, ORDER BY, LIMIT and OFFSET the same. |
| `LiftedStatement.LiteralsInOrder` | src/sql/parser.cpp:359-376 | The values lifted from the words are the literals of the statement, left to right. |
| `ClientQuery.TrimmedStays` | src/sql/parser.cpp:17-22 | A trimmed text that lexes is not changed by trimming again. |
| `ClientQuery.PrepareClientQuery` | src/sql/parser.cpp:344-418 | Fails exactly when the text does not parse or lex or a literal is out of range; otherwise template, literals, LIMIT, OFFSET and COUNT are those of the trimmed text. |
| `ClientQuery.TemplateReadsBack` | src/sql/parser.cpp:387-416 | The template tokenizes to the lifted words exactly when no literal is glued to a following letter or underscore and the template is within the length limit. |
| `ClientQuery.ServerReadsStatement` | src/sql/parser.cpp:336-418 | The server parses the statement of the source with parameters for its literals exactly when no literal is glued and the length limit is kept; otherwise it refuses the template. |
| `ClientQuery.GluedIsRefused` | src/sql/parser.cpp:406-415 | A template with a glued literal is never misread: the server refuses it. |
| `Gluing.StatementFits` | src/sql/parser.cpp:31-330 | In every statement that parses, a value is followed by a closing or joining word and a joining word is not. |
| `Gluing.GluedShows` | src/sql/parser.cpp:406-415 | If a literal of a text that parses is glued, its template does not lex or has a parameter in front of a word that cannot follow a value. |
| `GluedQuery.GluedQueryHappens` | src/sql/parser.cpp:344-418 | SELECT*FROM T WHERE A=1OR A=2 is prepared by the client, has a glued literal, and its template is refused. |
| `ClientQuery.ClientKeepsLiterals` | src/sql/parser.cpp:391-403 | The client encrypts exactly the literals of the statement in the order of their parameters. |
| `ClientQuery.TemplateHidesValues` | src/sql/parser.cpp:359-417 | Two accepted queries that differ only in the contents of their match values are sent as the same text. |
| `LogicalPlan.CollectMeans` | src/sql/logical_plan.cpp:15-63 | What the OR collector accepts is an equality of one column with any of the collected names, and the names are the values of the tree left to right. |
| `LogicalPlan.MatchMeansFilter` | src/sql/logical_plan.cpp:70-141 | Whenever a filter is planned its operands are its values left to right, and it holds of a row exactly when the planned match does. |
| `LogicalPlan.LiftingKeepsMeaning` | src/sql/parser.cpp:387-416 | A filter with its literals lifted means what it meant, under any binding of the parameters to the lifted values. |
| `LogicalPlan.PlanMeansText` | src/sql/logical_plan.cpp:215-240 | For a text whose values are all literals, the plan of the template wants as many operands as were lifted, and the text filter holds of a row exactly when its match column is one of them, or for the inequality is not. |
| `LogicalPlan.OperandCounts` | src/sql/logical_plan.cpp:215-240 | The plan wants an operand for every value of the filter; the client has one for every literal, so the counts agree exactly when no value is a bound parameter. |
| `LogicalPlan.PlanMeansBound` | src/client/query_client.cpp:264-272 | For a filter whose one value is a bound parameter the plan selects the rows that have, or for <> have not, the value bound to it. |
| `LogicalPlan.NamesApart` | src/sql/parser.cpp:412-412 | Two lifted literals never share a parameter name. |
| `LogicalPlan.EncodedSelects` | src/server/engine.cpp:305-308 | Matching on encoded keys is matching on values if and only if the row has a searched value or shares no key with one. |
| `LogicalPlan.OrEqualityCollector.Visit` | src/sql/logical_plan.cpp:20-58 | The visitor collects what the collecting function defines, or returns its error. |
| `LogicalPlan.PlanFilter` | src/sql/logical_plan.cpp:74-137 | The planning visitor computes the planned match or its error, for every kind of node. |
| `LogicalPlan.CheckProjection` | src/sql/logical_plan.cpp:194-207 | A projection passes exactly when it is non-empty, has no empty name and repeats none. |
| `LogicalPlan.BuildLogicalPlan` | src/sql/logical_plan.cpp:190-240 | Builds the plan, or fails for a missing filter, an unplannable one, an empty table name or a bad projection. |
| `TextToRows.LiteralOperandsAgree` | src/server/engine.cpp:292-302 | For a text whose values are all literals, the number of operands the client sends equals the number planned exactly when the encoded literals are distinct. |
| `TextToRows.OperandsAgree` | src/server/engine.cpp:292-302 | For any text: the counts agree exactly when the searched values are as many as planned and their keys are distinct. |
| `TextToRows.RepeatedIsRefused` | src/crypto/ops.cpp:102-121 | A value listed twice in IN plans two operands and sends one. |
| `TextToRows.EncodeLiterals` | src/client/query_client.cpp:273-281 | Fails exactly when some value has no key; otherwise every value is encoded by its own type, below 2 to the key size. |
| `TextToRows.SameKey` | src/core/key_codec.cpp:25-56 | The key stored for a cell is the key a search for its value uses. |
| `TextToRows.NumbersApart` | src/core/key_codec.cpp:25-43 | On an INTEGER column no stored number shares the key of a searched number it is not. |
| `TextToRows.TextMeetsNumber` | src/client/query_client.cpp:275-280 | A search for a text uses the key of the number that is its cut hash. |
| `TextToRows.ShardTable` | src/server/engine.cpp:32-66 | The table the matcher gets of stored records holds, for every record, the key of its value in the searched column and its payload. |
| `TextToRows.PlanText` | src/server/engine.cpp:225-232 | Succeeds exactly when the client accepts the text and the server parses and plans its template, with that plan and the literals of the text. |
| `TextToRows.PlanIsPlanned` | src/server/engine.cpp:225-232 | Every plan made of a template is the plan of the typed statement with its literals lifted. |
| `TextToRows.EngineDecides` | src/server/engine.cpp:305-328 | The match on encrypted keys decides every record as the filter of the typed text does, given that no record shares a searched key without having a searched value. |
| `TextToRows.AnswerTables` | src/server/engine.cpp:292-345 | A planned text is answered exactly when its distinct keys are as many as planned, 1..64; the answer then tells the truth about the filter. |
| `TextToRows.AnswerText` | src/client/query_client.cpp:252-321 | From typed text to rows: a query is answered exactly when it is planned on a searchable column and its values have as many distinct keys as planned, 1..64; the counts then add up to the number of stored records that satisfy the filter as typed, every clean record is the payload of such a record, and without collisions they are all of them, each once. |
| `Crc.StepLinear` | src/storage/crc32.cpp:12-15 | A shift step distributes over exclusive or. |
| `Crc.StepInjective` | src/storage/crc32.cpp:12-15 | A shift step loses no information. |
| `Crc.LookupFeedsByte` | src/storage/crc32.cpp:26-28 | One table lookup does what feeding the eight bits of a byte does. |
| `Crc.BuildTable` | src/storage/crc32.cpp:9-19 | Entry i is eight shift steps of i. |
| `Crc.Crc32` | src/storage/crc32.cpp:23-30 | The table-driven loop computes the bit-at-a-time CRC-32 of section 3.2.9 of IEEE 802.3. |
| `Crc.BurstSeen` | src/storage/crc32.cpp:23-30 | Bit streams that differ only inside 32 consecutive bits leave different states. |
| `Crc.BurstChangesChecksum` | src/storage/crc32.cpp:23-30 | A change confined to at most four consecutive bytes changes the checksum. |
| `LittleEndian.DecodeEncode` | src/storage/little_endian.h:17-53 | Reading an encoded integer that fits gives it back. |
| `LittleEndian.EncodeDecode` | src/storage/little_endian.h:17-53 | Encoding a read integer gives its bytes back. |
| `RowFormat.ParseInvertsSerialize` | src/storage/staging.cpp:21-60 | Parsing yields a row exactly from the serialization of that row, with both parts below 4 GiB. |
| `Wal.WalWriter.Append` | src/storage/wal.cpp:114-133 | Refuses on a closed log or an entry of 4 GiB and more without a change; after a write given up anywhere or a failed sync the log still replays to exactly the whole entries. |
| `Wal.ReplayWal` | src/storage/wal.cpp:147-170 | The replay loop returns the entries of the leading whole frames with right checksums. |
| `Wal.ReplayOfCut` | src/storage/wal.cpp:147-170 | Cut at any byte, the log replays to exactly the entries whose frames end at or before the cut. |
| `Wal.FittingIsLargest` | src/storage/wal.cpp:156-162 | That number of entries is the largest whose frames fit. |
| `Wal.ReplayAll` | src/storage/wal.cpp:147-170 | A whole log replays to all its entries. |
| `Wal.ReplayStopsAtDamage` | src/storage/wal.cpp:163-168 | An entry with up to four consecutive bytes changed ends the replay before it, whatever follows. |
| `Segment.WriteSegment` | src/storage/segment.cpp:30-94 | Fails exactly for record size 0, a record of another size or a file of 2^64 bytes and more; otherwise the file is header and records. |
| `Segment.WrittenIsReadBack` | src/storage/segment.cpp:30-182 | Opening what was written, with matching or no expectations, succeeds and returns every record unchanged. |
| `Segment.OpenedIsWritten` | src/storage/segment.cpp:96-182 | Whatever opens is a written file, up to reserved header bytes and bytes behind the records, meets the expectations, and the records given out are the ones written. |
| `Segment.DamageIsNoticed` | src/storage/segment.cpp:144-149 | Up to four consecutive bytes changed anywhere in the records make opening fail. |
| `ShardRing.RingIsUnique` | src/cluster/shard_map.cpp:23-36 | The ring depends only on the set of ids, collisions of points included. |
| `ShardRing.RemovalMovesOnlyItsKeys` | src/cluster/shard_map.cpp:23-48 | Removing a node changes the owner of no key but its own, for every hash function. |
| `ShardRing.AdditionMovesOnlyToIt` | src/cluster/shard_map.cpp:23-48 | Adding a node moves keys only to it. |
| `ShardRing.ShardMap.Rebuild` | src/cluster/shard_map.cpp:23-30 | The rebuilt ring has every point of every node, the greatest id winning a collision. |
| `ShardRing.ShardMap.SetNodes` | src/cluster/shard_map.cpp:32-36 | The node list is sorted without repetitions and has the given members, and the ring is theirs. |
| `ShardRing.OneOwner` | src/cluster/shard_map.cpp:38-48 | Every key has exactly one owner among the nodes. |
| `ShardRing.RingKeepsKeysTogether` | src/cli/commands/data_commands.cpp:65-81 | Rows with equal matcher keys go to one node whenever their hashed keys agree. |
| `ShardRing.LoadShard` | src/cli/commands/data_commands.cpp:65-81 | The load filter keeps, in order, exactly the rows the node owns; for an id outside the list, or no nodes, nothing. |
| `ShardRing.PublishedReadBack` | src/cluster/shard_map.cpp:50-60 | A published map is read back with the same members exactly when no id is empty or has a line break. |
| `RateLimit.TryKeepsOk` | src/server/include/opaquedb/server/rate_limiter.h:20-30 | A request keeps the tokens between 0 and the burst, and lowers the level by what it admits. |
| `RateLimit.PatientIsAdmitted` | src/server/request_gate.cpp:36-45 | In any run of no more than 64 principals, a principal whose requests are at least one refill apart is never refused, the shared bucket included. |
| `RateLimit.RateLimiter.TryAcquire` | src/server/include/opaquedb/server/rate_limiter.h:20-30 | Refills by elapsed time up to the burst, then admits exactly when a whole token is there and takes it. |
| `RateLimit.StretchBound` | src/server/request_gate.cpp:12-45 | In any stretch of any run one principal gets at most burst + rate * T requests through and everybody together at most 64 times that. |
| `RateLimit.SharedNeverRefuses` | src/server/request_gate.cpp:10-45 | In any run of no more than 64 principals the shared bucket never refuses a request that the bucket of its principal admits. |
| `RateLimit.SixtyFifthIsRefused` | src/server/request_gate.cpp:10-45 | With a burst of one, the 65th of 65 principals at once is refused by the shared bucket alone. |
| `RateLimit.RequestGate.Admit` | src/server/request_gate.cpp:36-45 | Admits exactly when the bucket of the principal and then the shared one admit; the shared one is not drawn when the first refuses. |
| `RecordCodec.FieldReadBack` | src/core/record_codec.cpp:87-217 | A field written anywhere is read back, whatever follows. |
| `RecordCodec.RecordReadBack` | src/core/record_codec.cpp:87-217 | Decoding an encoded record, padding included, gives the payload values back. |
| `RecordCodec.EncodeRecord` | src/core/record_codec.cpp:87-142 | Encodes the payload columns in order and pads, or fails for a missing value, a wrong type, an overlong text or an overfull record. |
| `RecordCodec.DecodeRecord` | src/core/record_codec.cpp:176-217 | Reads the payload columns in order, or reports a truncated record. |
| `RecordCodec.IntKeysAreExact` | src/core/key_codec.cpp:29-40 | Different numbers never share a key. |
| `RecordCodec.UnpackInvertsPack` | src/core/key_codec.cpp:66-85 | Unpacking a packed key gives it back for every key size. |
| `RecordCodec.SearchableRank` | src/core/schema.cpp:89-101 | The rank is the number of searchable columns before a searchable column, and missing for any other. |
| `RecordCodec.EncodeMatchRecord` | src/core/record_codec.cpp:144-174 | Packs the keys of the searchable columns in order, or fails with the error of the first bad column. |
| `RecordCodec.SubKeyAtRank` | src/core/record_codec.cpp:144-174 | The slice at the rank of a searchable column unpacks to the encoded value of exactly that column. |
| `RecordCodec.BuildColumns` | src/server/engine.cpp:32-66 | Fails exactly when some match record is too short; otherwise the key column has the unpacked keys and the payload column the payloads, row by row. |
| `RecordCodec.MatcherSeesEncodedKeys` | src/server/engine.cpp:321-328 | Rows encoded from values come to the matcher with exactly the encoded keys of the queried column. |

## Left out

- SEAL itself: noise, relinearization, modulus switching and key generation; ciphertexts are slot vectors with a depth count.
- Rate of failure of a query whose match count reaches the plaintext modulus: nothing is claimed of such a bucket.
- 32-bit overflow of record size plus block size in the plane count: sizes are unbounded numbers there.
- Bitwise OR of bytes into a slot and `&` with a power-of-two mask: written as addition on disjoint bit ranges and as remainder.
- Threads of `evaluate`: each worker writes only its own accumulator, so the model runs the shares one after the other.
- Evaluation.Evaluate: does not model exceptions thrown by SEAL, because the preconditions of each operation are proved instead.
- RateLimit.RequestGate.Admit: keeps the per-principal buckets as values in a map, because aliasing between them cannot occur.
- RateLimit: reals instead of doubles, so rounding is not modelled.
- Election.OneLiveLeader: does not say that the published shard map equals membership, because the published text survives a loss of leadership.
- Election: real etcd time-outs whose effect is unknown; calls either take effect or fail without one.
- EpochStore: a rollback that overlaps a writer, and a reader that opens an epoch while it is pruned; the code does not lock these.
- EpochStore: schema, manifest text and geometry inside an epoch directory; a directory is its rows and which files are there.
- Wal.WalWriter.Append: does not say what later appends behind a torn frame replay to, because replay stops at the tear.
- Memory mapping of segments: the file is its bytes.
- Combining.DecryptResults: does not model a key size of 0, because the code then reads the first of no slots.
- TextToRows.AnswerText: does not model the table lookup, backend choice and projected columns of the physical plan, because they can only refuse a query.
- Hash functions (FNV-1a, splitmix64): arbitrary functions, so text matches only up to the encoded key.
- LogicalPlan.PlanMeansText: covers texts whose values are all literals; one bound parameter is `LogicalPlan.PlanMeansBound`, and other mixes are refused (`TextToRows.OperandsAgree`).
- REAL columns: carried as 64 opaque bits.
- Error messages, and which of several errors is reported first while tokenizing or parsing: every such error is one and the same.
- gRPC services, TLS, authentication, the command line, TOML, JSON and CSV parsing, the catalog and schema validation: plumbing or easy members.
