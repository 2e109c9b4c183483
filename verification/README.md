# Verified model of the content node

This project models the stateful algorithms of the content node, the canonical JSON printer of the discovery node and
the confirmation wait of the identity service, and proves what they are there for. `dafny verify dfyconfig.toml` checks
everything.

- `ContentTables`, `Blacklist`, `Servability`: the content blacklist. Three redis sets mirror a closure over the content
  tables; a cache and a set of invalid ids sit in front of the tables when a CID is to be served.
- `ClockLog`, `UserDeletion`, `FilesHash`: the clock of each user and the log behind it, the deletion of all of a user's
  rows, and the hash by which replicas compare their logs.
- `ContentStore`, `ContentFolder`: fetching, verifying and retrying files that are stored by content, and the removal
  of a content folder.
- `WriteQuorum`: polling the chain for the replica set, and waiting for a second copy of a write.
- `Json`, `KeyOrder`, `Canonical`, `ApiSigning`: the canonical text that is signed, in JavaScript and in Python.
- `Heartbeat`, `BullTruncation`, `CidPaths`: streamed JSON responses, the depth-limited view of queue data, and storage
  paths printed and read back.
- `Sessions`, `WalletLock`, `Confirmation`: small concurrent state machines.
- `Prelude`: options and two helpers.

Where the original updates state step by step, a class with the same fields and loops is proved against a function or a
step relation, and the theorems about whole runs are proved of that function or relation. The database, redis, the
disk, the chain and peers appear as maps and sets, or as answers that may be anything. Cryptographic functions are
parameters, with the laws used stated in the theorems that use them (`RecoversSigner`, `TellsApart`).
Where any call to redis, the database or the disk may fail, a class has a constant `healthy`: if it holds no call
fails, and otherwise calls may fail at any point.

## Where the code does not do what it is meant to do

The model follows the code. Each of these is proved with a concrete case or with the exact condition:

- Removing a blacklisted user or content can unlist what a remaining row still blacklists
  (`Blacklist.RemovalAgreesExactlyWhenSeparable`, `Blacklist.RemovalCanUnlistAStayingRow`).
- The expiry meant for the set of invalid ids is dropped by `addToRedis`, so an id queried before its upload is given up
  on for good (`Servability.GivenUpForever`).
- The comment on `createNewDataRecord` says that subqueries guarantee atomicity. Calls of one transaction that are sent
  at once, rather than awaited one after the other as every caller does, keep rows and clock records in bijection in
  all orders exactly when they write one table; any two calls of different tables have an order that commits and breaks
  it (`ClockLog.EveryOrderIsConsistentExactlyWhen`, `ClockLog.CommittedIsConsistentExactlyWhen`).
- `fixInconsistentUser` does not await its UPDATE, so the next write may be taken first; then it is as if there were no
  fix (`ClockLog.Database.CreateBeforeFix`, `ClockLog.FixIsInTimeExactlyWhen`, `ClockLog.LateFixFails`).
- Deleting all data of a user silently does nothing for a user with a content list, since that table is not among those
  deleted from (`UserDeletion.ContentListsBlockDeletion`).
- A clock bound of zero is no bound, so a range cut at zero is not the concatenation of its halves unless both are
  empty (`FilesHash.RangesConcatenateExactlyWhen`).
- A write that breaks off, or a body that cannot be hashed, is left on disk when nothing better is found, and later
  calls take the file as stored (`ContentStore.SaveOutcome`, `ContentStore.BrokenWriteIsTrustedLater`).
- If the chain ever listed a node as its own secondary, that node would count twice, and a quorum could be one copy
  (`WriteQuorum.QuorumIsTwoCopiesExactlyWhen`, `WriteQuorum.SelfTwiceIsNoQuorum`).
- The limits documented for the queue view do not apply to strings and objects in arrays and to the root; the output
  meets them exactly when nothing too large stands there (`BullTruncation.DocumentedExactlyWhen`).
- JavaScript and Python print different texts for array-index keys and for keys beyond the basic plane
  (`ApiSigning.TextsAgreeExactlyWhenOrdersAgree`).
- A response that stringifies to an empty object ends the stream in malformed JSON
  (`Heartbeat.EmptyResponseIsNotJson`).
- `deleteSessionTokensFromDB` swallows a failing statement, so the retry in `deleteSessions` is not reached by it and
  the tokens stay valid (`Sessions.SessionManager.DeleteSessions`).
- `primarySyncFromSecondary` releases the wallet lock even when it did not get it
  (`WalletLock.WalletWriteLock.PrimarySync`, `WalletLock.IntrusionAdmitsASecond`).
- A websocket setup that throws leaves the confirmation promise unsettled for ever, and the resend loop compares seconds
  with a timeout in milliseconds (`Confirmation.SettledExactlyWhenSetupDidNotThrow`,
  `Confirmation.ResendsOutliveTheTimer`).

## Model

| member | source | states |
|---|---|---|
| `Blacklist.ClosureUnion` | content-node/src/blacklistManager.js:220-301 | Blacklisting two sets of rows together accounts for exactly the users, content ids and CIDs of each, joined: the fact incremental upkeep rests on |
| `Blacklist.ClosureMonotone` | content-node/src/blacklistManager.js:220-301 | More rows never account for less |
| `Blacklist.ClosureIds` | content-node/src/blacklistManager.js:220-234 | Read off the tables: a user is accounted for if and only if listed, and a content id if and only if it is listed or is that of a content with the same owner as some row of a listed user |
| `Blacklist.ClosureCids` | content-node/src/blacklistManager.js:257-301 | Read off the tables: a CID is accounted for if and only if it is listed, a segment of such a content that is not whitelisted, or a file of one that is not whitelisted or is an original or a 320 kbit copy |
| `Blacklist.OtherUsersStayOut` | content-node/src/blacklistManager.js:224-228 | Listing users does not account for a content of a user who is not listed, nor for a CID that occurs in no other content |
| `Blacklist.OwnContentsAreIn` | content-node/src/blacklistManager.js:224-228 | It does account for every content of a listed user, and for its segments outside the whitelist |
| `Blacklist.RunStaysInsideClosure` | content-node/src/blacklistManager.js:28-45 | After any sequence of init and add calls, wherever each of them failed, redis holds nothing that the table does not account for |
| `Blacklist.RunHoldsNothingElse` | content-node/src/blacklistManager.js:303-340 | After any sequence of inits, adds and removals, wherever they failed, redis holds nothing that the rows that were ever listed do not account for |
| `Blacklist.RunKeepsTheRest` | content-node/src/blacklistManager.js:303-340 | What is in redis stays there over any sequence of inits, adds and removals, wherever they failed, as long as no removed row accounts for it |
| `Blacklist.RunComputesClosure` | content-node/src/blacklistManager.js:89-169 | If every call returned, no sadd was refused and every removal was separable, redis is at every point exactly the closure of the rows it was told about, whatever the batches and chunks |
| `Blacklist.ToldIsTheTable` | content-node/src/blacklistManager.js:49-83 | Over inits, adds and removals, redis has been told about the whole table once an init has been seen, or if the table was empty at first |
| `Blacklist.IndexAgreesWithTable` | content-node/src/blacklistManager.js:28-45 | The promise of the index: at every point after an init, over any adds and separable removals, the three redis sets equal the closure computed from the table |
| `Blacklist.StepAgreesExactlyWhenSeparable` | content-node/src/blacklistManager.js:303-340 | From agreement with the table, a successful init or add keeps it, and a removal if and only if what it removes is separable |
| `Blacklist.IndexStaysExactlyWhenSeparable` | content-node/src/blacklistManager.js:303-340 | From agreement on, redis agrees with the table all along a run of inits, adds and removals if and only if every removal was separable |
| `Blacklist.InitRecovers` | content-node/src/blacklistManager.js:28-45 | After any sequence of inits and adds, however they failed, one init that returns with no refused sadd makes redis the closure of the table |
| `Blacklist.RemovalAgreesExactlyWhenSeparable` | content-node/src/blacklistManager.js:175-214 | Taking the closure of the removed rows out of redis leaves the closure of the remaining rows if and only if the two closures share no member |
| `Blacklist.RemoveUndoesAdd` | content-node/src/blacklistManager.js:303-340 | Adding rows and removing them again gives back both the table and redis when what they account for is disjoint from the rest |
| `Blacklist.RemovalCanUnlistAStayingRow` | content-node/src/blacklistManager.js:323-340 | A concrete table in which removing a blacklisted user also unlists a content id that a remaining row still blacklists |
| `Blacklist.Distinct` | content-node/src/blacklistManager.js:105-106 | Deduplication keeps exactly the members, each once |
| `Blacklist.SelectOwned` | content-node/src/blacklistManager.js:220-234 | The ids of exactly the contents whose owner is a listed user |
| `Blacklist.SelectContents` | content-node/src/blacklistManager.js:242-249 | Exactly the content rows with a listed id |
| `Blacklist.SelectFiles` | content-node/src/blacklistManager.js:274-287 | Exactly the file rows that belong to a listed content id |
| `Blacklist.BlacklistManager.AddInChunks` | content-node/src/blacklistManager.js:406-420 | Chunks of 100000 add a prefix of the data, and all of it if and only if no sadd was refused; a refusal is swallowed |
| `Blacklist.BlacklistManager.AddToRedis` | content-node/src/blacklistManager.js:428-468 | Only the named set grows, never beyond the data, and to all of it when nothing was refused |
| `Blacklist.BlacklistManager.GetCidsToBlacklist` | content-node/src/blacklistManager.js:257-301 | The CIDs of the ids: segments outside the whitelist, and files outside it unless their type is digital_content or copy320 |
| `Blacklist.BlacklistManager.AddAggregateCids` | content-node/src/blacklistManager.js:128-169 | Batches of 200 ids add the CIDs of all ids; a call that fails half-way added a part of them and nothing else |
| `Blacklist.BlacklistManager.FetchCidsAndAddToRedis` | content-node/src/blacklistManager.js:89-125 | Redis grows within the closure of the given rows, and by all of it when the call returns without a refused sadd |
| `Blacklist.BlacklistManager.SelectListed` | content-node/src/blacklistManager.js:49-83 | The listed values of one kind, for any storage order |
| `Blacklist.BlacklistManager.InitIndex` | content-node/src/blacklistManager.js:28-45 | One init step: the table stays, redis moves towards the closure of the whole table, and the flag is set only on success |
| `Blacklist.BlacklistManager.AddValues` | content-node/src/blacklistManager.js:303-321 | One add step: the table changes first, then redis moves towards the closure of the added rows only |
| `Blacklist.BlacklistManager.RemoveFromRedis` | content-node/src/blacklistManager.js:475-493 | All the given members leave the named set, or none does and the call fails |
| `Blacklist.BlacklistManager.FetchCidsAndRemoveFromRedis` | content-node/src/blacklistManager.js:175-214 | Only members of the closure of the removed rows ever leave redis, and all of them when the call returns |
| `Blacklist.BlacklistManager.RemoveValues` | content-node/src/blacklistManager.js:323-340 | One removal step; from an index that agrees with the table, it agrees afterwards if and only if the removed rows were separable |
| `Servability.FirstOfExtended` | content-node/src/blacklistManager.js:533-546 | Uploading a further row does not change which stored row is looked up first for an id |
| `Servability.FirstIsFirst` | content-node/src/blacklistManager.js:533-546 | The row looked up is the first with the id, and there is none exactly when no row has it |
| `Servability.TableAnswerMeans` | content-node/src/blacklistManager.js:495-576 | The answer of the tables, written out over blacklisted ids, blacklisted CIDs and the segments of the first row, for absent, zero, negative and positive ids |
| `Servability.StepKeepsSound` | content-node/src/blacklistManager.js:495-576 | Whatever is cached for an id was taken from its stored row, after every query, upload, expiry and refused write |
| `Servability.StepKeepsFull` | content-node/src/blacklistManager.js:495-576 | Without refused writes, what is cached for an id is all of its segments |
| `Servability.RunNeverServesMoreThanTables` | content-node/src/blacklistManager.js:495-576 | In every state reached by queries, uploads, expiries, partial cache writes and faults, a CID is served only if the content tables alone would serve it |
| `Servability.RunAnswersAsTables` | content-node/src/blacklistManager.js:495-576 | Over fixed tables and without refused writes, the answer through the two caches is the answer of the tables, for every query that meets no fault |
| `Servability.RunDiffersExactlyOnForgottenSegments` | content-node/src/blacklistManager.js:515-545 | Over all runs from a sound cache, uploads and refused writes included, the answer differs from that of the tables if and only if the blacklisted segment asked for is stored, but its id is marked invalid with nothing cached or a refused write left it out of the cache |
| `Servability.GivenUpForever` | content-node/src/blacklistManager.js:453-466 | The mark on an invalid id never expires, so once given up on, no blacklisted CID is served for that id in any later state |
| `Servability.QueryBeforeUploadIsRefusedAfter` | content-node/src/blacklistManager.js:537-545 | A concrete history in which one early query makes the node refuse a CID that its tables would serve |
| `Servability.Server.IsServable` | content-node/src/blacklistManager.js:495-576 | One query step of the state machine; from a sound cache it serves only what the tables serve; without a failing call, a blacklisted CID of a positive id that is not cached caches the segments of its first row, or marks the id if there is no row |
| `Servability.Server.MarkAsInvalid` | content-node/src/blacklistManager.js:537-545 | The id is marked, or the write is refused and nothing changes |
| `Servability.Server.CacheInChunks` | content-node/src/blacklistManager.js:428-448 | A prefix of the segments is cached for the id, and all of them when nothing is refused |
| `ClockLog.RunKeeps` | content-node/src/dbManager.js:20-56 | In whatever order the database takes the statements of concurrent calls on one user, the records and rows in the log are exactly those the calls wrote, the new records distinct and beyond the old clock |
| `ClockLog.RunKeepsCalls` | content-node/src/dbManager.js:20-56 | Each call keeps its table, and is as far as the order has named it |
| `ClockLog.NoRowWithoutRecord` | content-node/src/dbManager.js:46-53 | At every point of every order, the rows of all tables but the content lists have a record at their clock, as the foreign keys demand |
| `ClockLog.OvertakenRowIsRefusedExactlyWhen` | content-node/src/dbManager.js:46-53 | A row sent after another call bumped the clock and before it recorded it is refused, if and only if it is not the row of a content list |
| `ClockLog.CommittedRecordsFillTheInterval` | content-node/src/dbManager.js:37-44 | When all calls are through, their records are exactly the clocks between the old and the new value |
| `ClockLog.CommittedStaysContiguous` | content-node/src/dbManager.js:20-56 | A transaction that commits leaves ClockRecords 1..clock without gap or repeat, for every interleaving of its calls |
| `ClockLog.OneClockGivesBijection` | content-node/src/dbManager.js:46-53 | If both subqueries of each call read the same clock, data rows and ClockRecords are in bijection by clock and source table |
| `ClockLog.BijectionGivesOneClock` | content-node/src/dbManager.js:46-53 | Conversely the bijection only holds if no increment fell between the record and the row of any call |
| `ClockLog.CommittedIsConsistentExactlyWhen` | content-node/src/dbManager.js:20-56 | A committed transaction keeps data rows and ClockRecords in bijection by clock and source table if and only if, in the order of its statements, no call starts while another is between its record and its row |
| `ClockLog.OneTableIsConsistent` | content-node/src/dbManager.js:46-53 | Calls that all write one table keep the bijection in every order that commits |
| `ClockLog.TwoTablesCanDiverge` | content-node/src/dbManager.js:33-53 | Any two calls of different tables, among any others, have an order that commits and breaks the bijection: the first row takes the clock of the second record |
| `ClockLog.EveryOrderIsConsistentExactlyWhen` | content-node/src/dbManager.js:20-56 | Calls may be sent at once, whatever order their statements are then taken in, if and only if they all write one table |
| `ClockLog.BackToBackIsTidy` | content-node/src/components/digitalContents/digitalContentUploadManager.js:191-214 | Calls that are awaited one after the other never start while another is halfway |
| `ClockLog.AwaitedCallsAreConsistent` | content-node/src/components/digitalContents/digitalContentUploadManager.js:191-214 | So transactions that await each call, whatever tables they write, keep the bijection |
| `ClockLog.AwaitedCallsAreAccepted` | content-node/src/services/sync/primarySyncFromSecondary.js:376-384 | On a consistent log no statement of awaited calls is ever refused |
| `ClockLog.OneUpload` | content-node/src/dbManager.js:20-56 | A concrete run: one call on a new user commits with clock 1, its record and its row |
| `ClockLog.LogInvariant` | content-node/src/dbManager.js:20-56 | In every run of committed transactions from clock 0 the records are 1..clock, and in every run of transactions that await their calls, as all callers do, or write one table, rows and records are in bijection |
| `ClockLog.LogIsConsistentExactlyWhenTidy` | content-node/src/dbManager.js:20-56 | The bijection holds all along a run if and only if no call of any of its transactions started while another was halfway |
| `ClockLog.MaxClock` | content-node/src/dbManager.js:324-327 | The greatest recorded clock, or none exactly when there are no records |
| `ClockLog.BackToBackKeepsConsistent` | content-node/src/dbManager.js:20-56 | With its statements back to back, a call on a consistent log is never refused and leaves a consistent log |
| `ClockLog.Database.CreateNewDataRecord` | content-node/src/dbManager.js:20-56 | Clock, record and row get the same new clock, or nothing changes; it fails exactly for a missing user or a taken key |
| `ClockLog.Database.FixInconsistentUser` | content-node/src/dbManager.js:318-335 | When the UPDATE is taken, the clock becomes the greatest recorded one, or stays without records; no other user and no record or row changes |
| `ClockLog.Database.FixThenCreate` | content-node/src/dbManager.js:318-335 | If the UPDATE is taken before the next write, that write is accepted with a clock beyond every existing one, whatever the clock was |
| `ClockLog.Database.CreateBeforeFix` | content-node/src/dbManager.js:318-335 | If the write is taken first, since the UPDATE is not awaited, it is accepted if and only if the unfixed log accepts it, and its clock is beyond all records if and only if none was ahead of the user |
| `ClockLog.FixIsInTimeExactlyWhen` | content-node/src/dbManager.js:318-335 | The next write gets a new greatest clock in both orders if and only if no record was ahead of the user: when there was nothing to fix |
| `ClockLog.LateFixFails` | content-node/src/dbManager.js:318-335 | Two users whom the fix would mend, where a write taken before the UPDATE is refused, or gets a clock that is not the greatest |
| `UserDeletion.DestroyedShape` | content-node/src/dbManager.js:94-144 | What is left after each prefix of the seven deletions, table by table |
| `UserDeletion.NoPrefixDangles` | content-node/src/dbManager.js:94-144 | No prefix of the deletion order leaves a row that references a missing row |
| `UserDeletion.PurgedIsTheEnd` | content-node/src/dbManager.js:94-144 | The seven deletions together remove exactly the rows of the user from six tables, and no other row |
| `UserDeletion.PurgedMeans` | content-node/src/dbManager.js:94-144 | Read off the tables: the rows of the user are gone from six tables, and every other row is there |
| `UserDeletion.OrderIsNeeded` | content-node/src/dbManager.js:102-144 | Destroying files before the rows that reference them, or records before users and sessions that reference the user, breaks a foreign key |
| `UserDeletion.PassedMeansDeletable` | content-node/src/dbManager.js:102-144 | If the statements pass, then the user had no content list, no content referenced a content file, and no other row referenced a file of the user |
| `UserDeletion.AllPassExactlyWhenDeletable` | content-node/src/dbManager.js:94-144 | The seven deletions pass one after the other if and only if none of these stands in the way |
| `UserDeletion.FirstOfTwoGoes` | content-node/src/dbManager.js:94-144 | Concrete tables of two users: which of them can be deleted, and the rows that stay |
| `UserDeletion.ContentListsBlockDeletion` | content-node/sequelize/migrations/20220427014326-create-playlist-table-and-clock-record-type.js:88-154 | Where rows reference files of their own owner only, a user can be deleted if and only if the user has no content list |
| `UserDeletion.DBManager.DestroyAll` | content-node/src/dbManager.js:94-144 | The deletions fail if and only if one is refused by a foreign key or meets an unrelated fault; otherwise all of them took place |
| `UserDeletion.DBManager.DeleteAllCNodeUserData` | content-node/src/dbManager.js:64-165 | All rows of the user with that wallet or uuid are gone, or nothing is, exactly by whether the deletion order can pass and no unrelated fault occurs; an error undoes an external transaction as well; no user, no change |
| `FilesHash.Select` | content-node/src/dbManager.js:226-244 | Exactly the rows of the user within the clock bounds, of which zero and absent ones do not bind |
| `FilesHash.OrderOrders` | content-node/src/dbManager.js:222-222 | Ordering by clock keeps exactly the rows, in strictly rising clocks |
| `FilesHash.OrderIsUnique` | content-node/src/dbManager.js:222-222 | There is only one such order |
| `FilesHash.StorageOrderIsIrrelevant` | content-node/src/dbManager.js:220-224 | The CID sequence does not depend on the order in which rows are stored |
| `FilesHash.CidsAreTheMultihashes` | content-node/src/dbManager.js:220-244 | Any listing of exactly the files of the user within the bounds by rising clock gives the sequence: as long, and at each place the multihash of that file |
| `FilesHash.ChangedFileShows` | content-node/src/dbManager.js:220-244 | Changing the multihash of one file changes the sequence of a range if and only if the file is in the range |
| `FilesHash.TwoFiles` | content-node/src/dbManager.js:215-261 | A concrete table whose rows are stored out of order: the texts that are hashed, with and without bounds |
| `FilesHash.RangesConcatenate` | content-node/src/dbManager.js:235-244 | For a bound b that is not zero, the sequence for [a,c) is that for [a,b) followed by that for [b,c), where a and c may be absent or zero |
| `FilesHash.RangesConcatenateExactlyWhen` | content-node/src/dbManager.js:235-244 | For any b, the concatenation holds if and only if b is not zero or the user has no file in either range |
| `FilesHash.ZeroBoundIsNoBound` | content-node/src/dbManager.js:235-244 | A zero bound selects the whole log on both sides |
| `FilesHash.NewRecordsExtendTheEnd` | content-node/src/dbManager.js:215-261 | Records with later clocks only extend the sequence at its end, and the old sequence is the new one cut at the first of them |
| `FilesHash.TextDeterminesCids` | content-node/src/dbManager.js:222-222 | Equal joined texts come from equal CID sequences when no CID contains a comma |
| `FilesHash.CommasConfuse` | content-node/src/dbManager.js:222-222 | With a comma in a multihash two different logs have one text |
| `FilesHash.ReplicaMatchesRange` | content-node/src/dbManager.js:215-261 | A replica that holds the files up to some clock has the hash the primary gives for that range |
| `FilesHash.EqualHashesMeanEqualLogs` | content-node/src/dbManager.js:215-261 | Unless md5 collides on the two texts, the hashes of two ranges are equal if and only if they hold the same CIDs in order |
| `FilesHash.GroupedUsers` | content-node/src/dbManager.js:285-295 | One group for each listed user with files, and for no other |
| `FilesHash.SubqueryKeepsGroup` | content-node/src/dbManager.js:289-294 | Restricting the table to the listed users loses no row of any of them |
| `FilesHash.NoRowsNoHash` | content-node/src/dbManager.js:263-266 | A user without files has no hash |
| `FilesHash.FilesTable.FetchFilesHash` | content-node/src/dbManager.js:215-261 | The hash of the range by uuid or, failing that, by wallet; an unknown wallet has none; an error exactly when neither is given |
| `FilesHash.FilesTable.FetchFilesHashes` | content-node/src/dbManager.js:274-310 | One entry for each listed user, equal to the answer of the single query, with or without files |
| `ContentStore.EligibleMeans` | content-node/src/utils.js:130-135 | A node is asked if and only if it is registered and was not tried as a gateway |
| `ContentStore.EligibleKeepsOrder` | content-node/src/utils.js:130-135 | Such nodes keep their order, and are asked as often as they are registered |
| `ContentStore.FirstBodyIsFirst` | content-node/src/fileManager.js:230-313 | The gateway whose body is taken is the first that has one; there is none exactly when no gateway has one |
| `ContentStore.AskNode` | content-node/src/utils.js:145-189 | A peer ends the search only with bytes that hash to the CID |
| `ContentStore.SearchNodes` | content-node/src/utils.js:145-192 | Bytes that end the search hash to the CID, whatever the peers answer |
| `ContentStore.SearchOutcome` | content-node/src/utils.js:115-192 | The search succeeds if and only if some peer sends good bytes; otherwise the path holds what the last write left unverified and unremoved |
| `ContentStore.SearchFindsFirstGood` | content-node/src/utils.js:145-192 | What the search finds is the first good answer of a peer |
| `ContentStore.AgainExactlyWhenBad` | content-node/src/fileManager.js:352-408 | A retry is asked for if and only if the world delivered bytes that do not pass the check, and the attempt succeeds if and only if it delivered bytes that do |
| `ContentStore.TryOnceOutcome` | content-node/src/fileManager.js:119-434 | One attempt on an empty path ends with a verified file, with nothing, or, exactly when nothing was found, with the last unverified write |
| `ContentStore.SaveOutcome` | content-node/src/fileManager.js:119-434 | The call ends with the first attempt to which the world delivers no bad bytes, or the last one; it succeeds if and only if that one delivers good bytes, and on failure leaves nothing except for what that attempt wrote without finding anything |
| `ContentStore.GoodPeerIsEnough` | content-node/src/fileManager.js:119-434 | From an empty path that was not searched for yet, with no body from a gateway and redis working, one registered node outside the gateways that sends good bytes makes the call succeed with bytes of the CID, whatever the other nodes send |
| `ContentStore.GatewayBodyIsStoredExactlyWhen` | content-node/src/fileManager.js:352-408 | A body that arrives whole from the first gateway with one is stored in that attempt if and only if it can be hashed, hashes to the CID and is not empty, or the CID is that of the empty file |
| `ContentStore.HeldFileIsTrusted` | content-node/src/fileManager.js:119-434 | A path that holds a file is answered with success and left alone, unless its directory cannot be made |
| `ContentStore.CleanWorldSaves` | content-node/src/fileManager.js:119-434 | If failed streams leave no file and files can be read back, the call succeeds if and only if the path is present afterwards, and what it stored hashes to its CID |
| `ContentStore.BrokenWriteIsTrustedLater` | content-node/src/fileManager.js:214-227 | Whenever the first body breaks off and no peer answers, the bytes left are reported as stored by every later call, unverified |
| `ContentStore.SaveBufferOutcome` | content-node/src/fileManager.js:27-72 | The buffer is saved if and only if some write is verified before any throws; nothing is left when all verifications fail, and only a throwing write leaves its bytes |
| `ContentStore.WrongBufferIsLeft` | content-node/src/fileManager.js:27-72 | Bytes other than the CID's are left if and only if the first write to end the call breaks off with such bytes |
| `ContentStore.Store.NewDay` | content-node/src/utils.js:251-260 | A new day forgets which paths were searched |
| `ContentStore.Store.RemoveFile` | content-node/src/fileManager.js:717-724 | The path is gone, and no other |
| `ContentStore.Store.FetchFromGateways` | content-node/src/fileManager.js:233-313 | The first gateway with a body is written, and found means that all of it arrived |
| `ContentStore.Store.FindCidInNetwork` | content-node/src/utils.js:115-192 | Nothing happens to a path searched before that day; a path is recorded as searched even if the expiry then fails; otherwise found and disk are as the search over the peers that were no gateways says |
| `ContentStore.Store.SearchPeers` | content-node/src/utils.js:145-189 | The loop over the peers does what asking them in turn does |
| `ContentStore.Store.AskPeer` | content-node/src/utils.js:145-189 | A body that does not hash to the CID is unlinked again, one that cannot be hashed stays |
| `ContentStore.Store.SaveFileForMultihash` | content-node/src/fileManager.js:119-434 | Result and disk are those of the retried attempts, and no other path changes; every stored path still holds bytes of its CID if and only if the path was held before or no wrong bytes were left last; in a clean world the result says whether the path is present |
| `ContentStore.Store.SaveAttempt` | content-node/src/fileManager.js:119-434 | One attempt, after which a retry is only asked for when the path was cleared |
| `ContentStore.Store.FetchFile` | content-node/src/fileManager.js:230-350 | From the gateways if any delivers, else from the network |
| `ContentStore.Store.SaveFileFromBuffer` | content-node/src/fileManager.js:27-72 | Without a session nothing is written, and no path but that of the CID ever changes; what was saved hashes to its CID; each stored path still holds bytes of its CID if and only if the first write to end the call did not break off with other bytes |
| `ContentFolder.MayGoIsLocal` | content-node/src/fileManager.js:459-516 | What a failed removal may have removed lies in the folder or in its segments directory, and is a file or that directory |
| `ContentFolder.UploadIsExpected` | content-node/src/fileManager.js:448-457 | A concrete upload folder with a file and two segments is as expected |
| `ContentFolder.OtherDirectoryIsUnexpected` | content-node/src/fileManager.js:448-457 | A folder with a directory of any name but segments is not as expected |
| `ContentFolder.SiblingsDoNotOverlap` | content-node/src/fileManager.js:473-507 | Removing one entry touches nothing of another |
| `ContentFolder.AfterAllEntries` | content-node/src/fileManager.js:473-509 | Once every listed entry is gone, in any order, the folder is empty and everything else as before |
| `ContentFolder.Disk.ReadDir` | content-node/src/fileManager.js:473-473 | The children of the directory, each once, in any order |
| `ContentFolder.Disk.RemoveSegments` | content-node/src/fileManager.js:484-500 | The directory goes with its files if it has no subdirectory; a failure removed some of its files and nothing else |
| `ContentFolder.Disk.RemoveEntry` | content-node/src/fileManager.js:473-507 | A file or the segments directory goes entirely; anything else stops the removal |
| `ContentFolder.FineExactlyWhenExpected` | content-node/src/fileManager.js:448-457 | No entry of the folder stops the removal if and only if the only subdirectory is segments and that has none |
| `ContentFolder.Disk.RemoveEntries` | content-node/src/fileManager.js:473-507 | The loop over the entries removes all of them, or stops at one that is not expected or at an I/O error, having removed only what may go |
| `ContentFolder.Disk.RemoveFolder` | content-node/src/fileManager.js:459-516 | A missing folder or a file is refused without effect. Otherwise, unless an I/O call fails, it succeeds if and only if the only subdirectory is segments and that has none; then exactly the folder is gone, and on failure only what may go went |
| `WriteQuorum.GetReplicaSetSpIds` | content-node/src/middlewares.js:717-879 | The ids come from the first answer that does not throw within 201 polls, or from the first that names this node primary within 61, or from one call; else an error |
| `WriteQuorum.NotSelf` | content-node/src/utils.js:216-219 | The registered nodes without this one |
| `WriteQuorum.EndpointOfFirst` | content-node/src/middlewares.js:181-190 | The endpoint of a node is that of the first registered one with its id |
| `WriteQuorum.OtherIsAnEndpoint` | content-node/src/middlewares.js:178-190 | Every replica other than this node that is registered with an endpoint is among the endpoints |
| `WriteQuorum.OnlyRecurringSyncsAreDuplicates` | content-node/src/services/stateMachineManager/stateReconciliation/stateReconciliationUtils.js:16-87 | A waiting sync stands in for the new one exactly when it is recurring, and a request is refused exactly when a name is missing |
| `WriteQuorum.OthersAreNotSelf` | content-node/src/middlewares.js:172-190 | No endpoint of another replica is this node's own |
| `WriteQuorum.SyncUntilCaughtUp` | content-node/src/services/stateMachineManager/stateReconciliation/stateReconciliationUtils.js:93-157 | It resolves if and only if the request is queued and some poll sees the secondary at or above the clock; a manual sync is never dropped as a duplicate |
| `WriteQuorum.SomeSyncedOneMore` | content-node/src/middlewares.js:386-400 | Asking one more secondary adds exactly its own success |
| `WriteQuorum.ContentNode.ExpireCache` | content-node/src/utils.js:221-227 | The cached list is dropped |
| `WriteQuorum.ContentNode.GetAllRegisteredCNodes` | content-node/src/utils.js:199-245 | Never this node itself, from the cache or the chain, and nothing after any failure |
| `WriteQuorum.ContentNode.EnsurePrimary` | content-node/src/middlewares.js:95-199 | A session is passed on exactly when the answer of the chain that counts names this node primary; its endpoints are those of that answer, this node first and, unless the answer lists it again, nowhere else |
| `WriteQuorum.ContentNode.IssueAndWait` | content-node/src/middlewares.js:262-450 | The header "true" or "false" decides, otherwise the configuration, and ignoreWriteQuorum over both. Not enforced, it never throws; enforced, it returns if and only if this node is primary, has a clock, and some reachable secondary catches up with it |
| `WriteQuorum.FirstReplyIsAnAnswer` | content-node/src/middlewares.js:737-766 | Polling ends with the first answer of the chain that does not throw, and with none if and only if all throw |
| `WriteQuorum.AcceptedWriteSurvives` | content-node/src/middlewares.js:95-450 | From the chain to the write: it is accepted if and only if the quorum is reached, and if no answer of the chain lists this node as its own secondary, it is then held by a different node as well, so that the loss of any single node leaves one that has it, at all later times |
| `WriteQuorum.OneSecondaryIsEnough` | content-node/src/middlewares.js:262-372 | If one registered secondary has a domain name, its request is queued and a poll shows the clock, the quorum is reached whatever the others do |
| `WriteQuorum.SurvivesAnyLoss` | content-node/src/middlewares.js:386-400 | Two different holders survive any one loss as long as clocks do not go down |
| `WriteQuorum.QuorumIsTwoCopiesExactlyWhen` | content-node/src/middlewares.js:95-450 | In all worlds an accepted write is held by another node as well if and only if this node is not among its secondaries, or cannot be reached as one |
| `WriteQuorum.LonelyWriteIsAccepted` | content-node/src/middlewares.js:172-190 | Otherwise a write that only this node has is accepted |
| `WriteQuorum.SelfTwiceIsNoQuorum` | content-node/src/middlewares.js:95-450 | When the first answer of the chain names this node as primary and as secondary, an enforced call returns once the node has answered its own poll, although no other node ever has the write |
| `Json.RoundTrip` | content-node/src/apiSigning.js:21-21 | Parsing what JSON.stringify prints gives back the value and the rest of the text |
| `Json.ParsePrint` | content-node/src/apiSigning.js:21-21 | The printed text is one JSON text of the value |
| `Json.PrintIsInjective` | content-node/src/apiSigning.js:21-21 | Different values have different texts |
| `Json.EscapesAre` | content-node/src/apiSigning.js:21-21 | The escapes: quote, backslash, the five short ones, four hexadecimal digits for other control characters, and every other character as it is |
| `Json.WordsAre` | content-node/src/apiSigning.js:21-21 | The texts of words, strings, numbers and empty containers |
| `Json.ArraysAre` | content-node/src/apiSigning.js:21-21 | Arrays in brackets, with a comma between elements |
| `Json.ObjectsAre` | content-node/src/apiSigning.js:21-21 | Objects in braces, each key a string before a colon, with a comma between properties |
| `Json.NumbersAreRead` | content-node/src/apiHelpers.js:142-148 | The parser reads a number only where its decimal text stands, without leading zero and without a digit left |
| `Json.CharsAreRead` | content-node/src/apiHelpers.js:142-148 | It reads a character only as itself, its escape, or two hexadecimal digits of an escape |
| `Json.TrailingTextIsRefused` | content-node/src/apiHelpers.js:142-148 | A value with anything after it that cannot continue a number does not parse |
| `KeyOrder.JsLessIsAnOrder` | content-node/src/apiSigning.js:94-95 | Comparison by UTF-16 code units is a strict total order on strings |
| `KeyOrder.PyLessIsAnOrder` | discovery-node/src/api_helpers.py:97-103 | So is comparison by code points |
| `KeyOrder.JsBeforeIsAnOrder` | content-node/src/apiSigning.js:94-96 | So is the enumeration order of JavaScript, with array indices first by value (ECMA-262 section 10.1.11.1) |
| `KeyOrder.LexLessMeans` | content-node/src/apiSigning.js:94-95 | One sequence of units comes before another if and only if, after what they have in common at the front, it is at its end or smaller |
| `KeyOrder.UnitsAre` | content-node/src/apiSigning.js:94-95 | Concrete strings in code units and in code points: a surrogate pair stands for a character beyond the basic plane |
| `KeyOrder.IndexMeans` | content-node/src/apiSigning.js:96-96 | The array indices are exactly the decimal texts of the numbers below 2^32 - 1 (ECMA-262 section 6.1.7) |
| `KeyOrder.SortSorts` | content-node/src/apiSigning.js:94-95 | Sorting keeps exactly the properties, in strictly rising keys |
| `KeyOrder.SortedIsUnique` | content-node/src/apiSigning.js:94-95 | The sorted sequence depends only on what is in it |
| `Canonical.CanonicalForm` | content-node/src/apiSigning.js:87-97 | For any total order of keys, two values have the same sorted form if and only if they are equal up to key order at every depth, array order kept |
| `Canonical.CanonIsSame` | content-node/src/apiSigning.js:87-97 | The sorted form is the value itself up to key order |
| `Canonical.CanonIsIdempotent` | content-node/src/apiSigning.js:87-97 | Sorting twice is sorting once |
| `Canonical.CanonsAgree` | discovery-node/src/api_helpers.py:97-103 | Two orders give a value the same form if and only if they agree on every two keys that occur in one object |
| `ApiSigning.PutSorts` | content-node/src/apiSigning.js:96-96 | Assigning a new key to an object under construction puts it where enumeration will find it |
| `ApiSigning.AssembleSorts` | content-node/src/apiSigning.js:94-96 | The reduce over sorted keys yields an object that enumerates indices first by value, then the other keys in order, with nothing lost |
| `ApiSigning.JsOrderingOrders` | content-node/src/apiSigning.js:94-96 | sortKeys puts every object into one fixed order |
| `ApiSigning.SortKeysIsCanonical` | content-node/src/apiSigning.js:87-97 | Two values have the same sortKeys result if and only if they are equal up to key order at every depth |
| `ApiSigning.SortKeysIsIdempotent` | content-node/src/apiSigning.js:87-97 | sortKeys twice is sortKeys once, and changes only the order of keys |
| `ApiSigning.JsTextIsCanonical` | content-node/src/apiSigning.js:17-21 | The text that is signed tells values apart exactly up to key order |
| `ApiSigning.PyOrderingOrders` | discovery-node/src/api_helpers.py:97-103 | sort_keys puts every object into code point order |
| `ApiSigning.PrintersAgree` | discovery-node/src/api_helpers.py:97-103 | For one and the same ordered value, json.dumps with tight separators writes the text of JSON.stringify, for all strings |
| `ApiSigning.TextsAgreeExactlyWhenOrdersAgree` | discovery-node/src/api_helpers.py:96-107 | JavaScript and Python sign the same text if and only if their orders agree on every two keys of each object |
| `ApiSigning.PlainTextsAgree` | discovery-node/src/api_helpers.py:96-107 | So they do for all data without array-index keys and without keys beyond the basic plane, in particular ASCII keys |
| `ApiSigning.IndexKeysDiffer` | discovery-node/src/api_helpers.py:97-103 | The keys 9 and 10 in one object give two different texts |
| `ApiSigning.AstralKeysDiffer` | discovery-node/src/api_helpers.py:97-103 | So do a key beyond the basic plane and one near its top |
| `ApiSigning.ToSignIsWellFormed` | content-node/src/apiSigning.js:18-19 | Adding the timestamp keeps each key once |
| `ApiSigning.ToSignMeans` | content-node/src/apiSigning.js:18-19 | What is signed are the data and this timestamp, which replaces one that was there |
| `ApiSigning.LawsCanHold` | content-node/src/apiSigning.js:21-26 | The laws asked of the cryptography do not contradict each other |
| `ApiSigning.ReorderedDataRecoversSigner` | content-node/src/apiSigning.js:64-70 | The signer is recovered from any reordering of the signed data |
| `ApiSigning.OnlyReorderedDataRecoversSigner` | content-node/src/apiSigning.js:64-70 | From nothing else, where the cryptography tells the two texts apart |
| `ApiSigning.SignerIsRecoveredInPython` | discovery-node/src/api_helpers.py:120-137 | A discovery node recovers the signer of data signed in JavaScript if the two key orders agree on it and, where the cryptography tells the two texts apart, only then |
| `ApiSigning.ListenSigner.Generate` | content-node/src/apiSigning.js:38-56 | The signature returned is less than five minutes old, over the data listen and its own timestamp, and recovers the wallet of the key that made it; a fresh one is reused whatever key is passed, and otherwise a new one is made |
| `Heartbeat.StreamIsMessage` | content-node/src/apiHelpers.js:142-148 | The pieces written form one JSON text, whose members are the heartbeats and then exactly the members of the response, for every number of ticks |
| `Heartbeat.EmptyResponseIsNotJson` | content-node/src/apiHelpers.js:142-148 | If the response has no member to write, what follows the heartbeats is a comma and a brace, and the text does not parse |
| `Heartbeat.OnlyErrorsAreConverted` | content-node/src/apiHelpers.js:131-140 | Nothing is converted in a response of status 200; in another one exactly the members named error that are truthy, to the object of their own properties |
| `Heartbeat.ErrorsAre` | content-node/src/apiHelpers.js:131-140 | What is written for an Error instance, an object, a string, an array, and other truthy and falsy values |
| `Heartbeat.FailureHasAMember` | content-node/src/apiHelpers.js:182-187 | The failure path writes a member if and only if what was thrown is not undefined |
| `Heartbeat.Stream.End` | content-node/src/apiHelpers.js:147-148 | A finished stream takes nothing more |
| `Heartbeat.Stream.Tick` | content-node/src/apiHelpers.js:49-53 | One heartbeat, and none once the stream is finished |
| `Heartbeat.Stream.SendTerminator` | content-node/src/apiHelpers.js:104-149 | The rest of the text, once |
| `Heartbeat.Stream.Handle` | content-node/src/apiHelpers.js:34-66 | On success the whole stream is the message of the response, on failure that of a response of status 500 with the error, with as many heartbeats as ticks before the end; later ticks or a throwing next() write nothing; it parses if and only if there is a member |
| `Heartbeat.StreamedSuccessIsVerifiable` | content-node/src/apiHelpers.js:159-180 | What a client parses from a streamed success contains the signed data and a signature from which the wallet of the node is recovered |
| `BullTruncation.UnchangedExactlyWithin` | content-node/src/serviceRegistry.js:225-280 | Data is left unchanged if and only if it is within all limits of the code at its depth |
| `BullTruncation.MemberUnchangedExactlyWithin` | content-node/src/serviceRegistry.js:244-272 | The same for a value under an object key, where strings and keys are limited too |
| `BullTruncation.NotesAreShort` | content-node/src/serviceRegistry.js:217-223 | The notes put in place of data are themselves within the limits |
| `BullTruncation.NotesSayWhatWasThere` | content-node/src/serviceRegistry.js:217-272 | What stands in for what, as documented: from 7 levels on, beyond 100 elements or keys and beyond 10000 code units, the note with the length of what was there; otherwise the same length and keys |
| `BullTruncation.OutputIsWithin` | content-node/src/serviceRegistry.js:225-280 | What comes out is within the limits |
| `BullTruncation.TruncationIsIdempotent` | content-node/src/serviceRegistry.js:225-280 | Truncating twice is truncating once |
| `BullTruncation.OutputIsSmall` | content-node/src/serviceRegistry.js:225-280 | In the output non-empty containers nest at most 7 deep, no array is longer than 100, and no string under a key is longer than 10000 code units |
| `BullTruncation.DocumentedExactlyWhen` | content-node/src/serviceRegistry.js:210-223 | The output meets the documented limits on strings, arrays and objects, wherever they stand, if and only if the input has no long string and no object of many keys at the root or in an array that is kept |
| `BullTruncation.MemberDocumentedExactlyWhen` | content-node/src/serviceRegistry.js:244-272 | The same for a value under an object key, where long strings and large objects are seen |
| `BullTruncation.OutputIsAsDocumentedExactlyWhen` | content-node/src/serviceRegistry.js:210-223 | A top-level call always meets the documented nesting, and the other limits under that condition |
| `BullTruncation.ElementsAndRootAreNotLimited` | content-node/src/serviceRegistry.js:210-223 | Strings and objects in arrays, and an object at the root, keep their size, so that the documented limits can fail |
| `BullTruncation.TruncateBull` | content-node/src/serviceRegistry.js:225-280 | The loops over elements and entries compute the truncation of every value at every depth, and terminate |
| `BullTruncation.TruncateMember` | content-node/src/serviceRegistry.js:244-272 | The switch on the type of a member computes its truncation |
| `CidPaths.SearchFrom` | content-node/src/diskManager.js:168-169 | The leftmost match, or none if and only if there is none |
| `CidPaths.MatchesInRoot` | content-node/src/diskManager.js:10-11 | A path matches inside the storage root exactly where the root does |
| `CidPaths.NoMatchBeforeCid` | content-node/src/diskManager.js:68-82 | Neither the files directory nor the three-character shard is taken for a CID |
| `CidPaths.CidMeans` | content-node/src/diskManager.js:10-11 | A component is a CID if and only if it is Qm and 44 letters or digits |
| `CidPaths.MatchMeans` | content-node/src/diskManager.js:10-11 | A match is a slash, Qm, and 44 letters or digits |
| `CidPaths.SecondCid` | content-node/src/diskManager.js:168-189 | Right after a CID a second one is taken with a slash before it and without, and no CID is taken without a slash before the first |
| `CidPaths.PathText` | content-node/src/diskManager.js:54-83 | The text of a path: the root, files, the three characters of the CID before its last, or as many as there are, and the CID |
| `CidPaths.ExtractFromLayout` | content-node/src/diskManager.js:168-189 | The leftmost CID of a printed path is the printed one, unless the root contains one |
| `CidPaths.FilePathRoundTrip` | content-node/src/diskManager.js:54-83 | The path of a CID reads back as no directory and that CID, for every root without a CID component |
| `CidPaths.FilePathInDirRoundTrip` | content-node/src/diskManager.js:118-142 | The path of a file in a directory reads back as a directory with exactly the two CIDs |
| `CidPaths.PathsAreDistinct` | content-node/src/diskManager.js:54-142 | For every root, two paths are equal if and only if their CIDs are, and no file path is a path inside a directory |
| `CidPaths.DiskManager.ComputeFilePath` | content-node/src/diskManager.js:54-83 | An invalid CID or a directory that cannot be made is an error without effect; otherwise the shard directory exists and the path reads back as its CID |
| `CidPaths.DiskManager.ComputeFilePathInDir` | content-node/src/diskManager.js:118-142 | Missing names, invalid CIDs and a failing directory are errors without effect; otherwise the path reads back as its two CIDs |
| `Sessions.PendingStays` | content-node/src/sessionManager.js:60-87 | A deletion past its database part stays pending until its own redis step |
| `Sessions.StepKeepsOwned` | content-node/src/sessionManager.js:19-87 | Database and redis hold a token only for the user it was made for |
| `Sessions.StepKeepsCreations` | content-node/src/sessionManager.js:19-28 | A token under creation is in the database unless its user went, and in no deletion |
| `Sessions.StepKeepsRedis` | content-node/src/sessionManager.js:19-87 | A token in redis is in the database, or its deletion is past the database or failed in redis, or its user is gone |
| `Sessions.RunKeepsInvariant` | content-node/src/sessionManager.js:19-87 | All of this holds in every state reached by interleaved creations, deletions, bulk deletions with failing database parts, and deletions of users |
| `Sessions.VerifyIsTheDatabaseLookup` | content-node/src/sessionManager.js:30-40 | In every reachable state verifySession answers as the database would, for each token with no deletion pending or failed in redis and a user who exists |
| `Sessions.VerifyDiffersExactlyOnStaleTokens` | content-node/src/sessionManager.js:30-40 | It differs from the database if and only if redis holds a token that the database does not |
| `Sessions.AuthenticatesExactlyWhen` | content-node/src/middlewares.js:25-56 | In every reachable state authMiddleware lets in exactly the tokens that the database or redis holds and that were made for a user who still exists; every token in the database is let in |
| `Sessions.GoneStaysGone` | content-node/src/dbManager.js:64-165 | The tokens of a deleted user stay tokens of a deleted user |
| `Sessions.DeletedUserIsRefused` | content-node/src/middlewares.js:25-56 | After all data of a user was deleted, every token made for that user is refused by authMiddleware in all later states |
| `Sessions.RedisOutlivesTheUser` | content-node/src/sessionManager.js:30-40 | Redis may still hold the token: verifySession alone accepts it |
| `Sessions.FollowsIsARun` | content-node/src/sessionManager.js:19-70 | The steps that a call of the manager makes are a run of the state machine from the state before the call to the state after it, and conversely |
| `Sessions.SessionManager.CreateSession` | content-node/src/sessionManager.js:19-28 | The two creation steps of the state machine in a row; a token that is returned is verified as its user's |
| `Sessions.SessionManager.VerifySession` | content-node/src/sessionManager.js:30-40 | Redis first, then the database |
| `Sessions.SessionManager.DeleteSession` | content-node/src/sessionManager.js:42-46 | The three deletion steps in a row, as far as none fails; a deleted token is refused, and a token without a row is an error |
| `Sessions.SessionManager.DeleteSessionTokensFromDb` | content-node/src/dbManager.js:173-204 | A failing statement is rolled back and does not throw |
| `Sessions.SessionManager.DeleteSessions` | content-node/src/sessionManager.js:48-70 | The bulk steps in a row, with a second transaction only if the first threw; when it returns, the tokens are refused if and only if the transaction it settled for committed |
| `WalletLock.StaysExclusive` | content-node/src/redis.js:67-119 | From any state with at most one active acquirer, who holds the key, every timed run without a release by a stranger stays so |
| `WalletLock.MutualExclusion` | content-node/src/redis.js:67-119 | In every timed run in which acquirers stop in time and nobody releases a lock that another is working under, at most one is active and the key is its own |
| `WalletLock.StrangersReleaseIsSafeExactlyWhenIdle` | content-node/src/redis.js:103-120 | After a release without holding the lock, no timed run without another such release ever has two active acquirers, if and only if nobody was active |
| `WalletLock.IntrusionAdmitsASecond` | content-node/src/services/sync/primarySyncFromSecondary.js:101-102 | Otherwise a second acquirer gets in beside the first, who would have kept it out |
| `WalletLock.KeyOutlivesNoExpiry` | content-node/src/redis.js:82-91 | A live key was set by an acquisition less than its expiry ago |
| `WalletLock.LiveKeyStays` | content-node/src/redis.js:67-119 | A live key stays until it is released or expires, whoever else stops working, and nobody else becomes active |
| `WalletLock.TheSecondWaitsForTheExpiry` | content-node/src/redis.js:67-119 | A concrete timed run: an acquirer stops without a release, a second one is kept out until the key expires, and then gets in |
| `WalletLock.FirstWorking` | content-node/src/redis.js:67-101 | The first of six calls that does not fail, and none exactly when all six do |
| `WalletLock.WalletWriteLock.SyncIsInProgress` | content-node/src/redis.js:35-42 | Whether the key is live |
| `WalletLock.WalletWriteLock.IsHeld` | content-node/src/redis.js:47-51 | Whether the key is live |
| `WalletLock.WalletWriteLock.BothQuestions` | content-node/src/redis.js:35-51 | syncIsInProgress and isHeld agree in every state |
| `WalletLock.WalletWriteLock.Acquire` | content-node/src/redis.js:67-101 | The first of six calls that works sets the key if it is not live, at the time it gets through; invalid acquirers and failing calls change nothing |
| `WalletLock.WalletWriteLock.Release` | content-node/src/redis.js:108-119 | The first of six calls that works deletes the key, whoever set it |
| `WalletLock.WalletWriteLock.SecondarySync` | content-node/src/services/sync/secondarySyncFromPrimary.js:36-51 | It syncs if and only if the key is not live when the acquisition gets through, and otherwise leaves the key alone |
| `WalletLock.WalletWriteLock.PrimarySync` | content-node/src/services/sync/primarySyncFromSecondary.js:42-116 | Whether or not it got the lock, and even if it never asked, the key is gone afterwards whenever the release works |
| `Confirmation.RunKeepsInvariant` | identity-service/src/solanaClient.js:287-344 | While the websocket is set up, done means settled; after a throwing setup done is set, nothing is settled or called and no poll is under way |
| `Confirmation.SettledOnce` | identity-service/src/solanaClient.js:287-344 | The promise settles at most once |
| `Confirmation.OnlyTheWebsocketCallsTwice` | identity-service/src/solanaClient.js:291-341 | Neither the timer nor a poll settles after done; only the websocket callback calls resolve or reject again |
| `Confirmation.SetupStays` | identity-service/src/solanaClient.js:298-314 | The setup happens once and first |
| `Confirmation.SettledExactlyWhenSetupDidNotThrow` | identity-service/src/solanaClient.js:291-314 | Once the timer has fired the promise is settled if and only if the setup did not throw, and after a throwing setup it is never settled |
| `Confirmation.VerdictComesFromAStep` | identity-service/src/solanaClient.js:287-344 | The verdict names the callback, poll or timer that gave it, while not done |
| `Confirmation.StepsSettle` | identity-service/src/solanaClient.js:287-344 | In every run a confirmed or failed poll, a callback and the timer each settle the open promise with their own verdict, and an answer that decides nothing changes nothing but the poll that is under way |
| `Confirmation.TimerFiresOnce` | identity-service/src/solanaClient.js:291-297 | The timer fires at most once in a run |
| `Confirmation.RunsGrow` | identity-service/src/solanaClient.js:287-344 | The runs are the start alone, and each run with any step that its last state allows |
| `Confirmation.Promise.OnSetup` | identity-service/src/solanaClient.js:298-314 | One setup step |
| `Confirmation.Promise.OnTimer` | identity-service/src/solanaClient.js:291-297 | One timer step: it rejects only if not done |
| `Confirmation.Promise.OnSignature` | identity-service/src/solanaClient.js:301-308 | One callback step, which settles whatever done says |
| `Confirmation.Promise.OnPollStart` | identity-service/src/solanaClient.js:315-322 | One poll is under way, which only starts while not done |
| `Confirmation.Promise.OnPollAnswer` | identity-service/src/solanaClient.js:317-339 | One answer step, which settles only if not done and only on an error or a confirmation |
| `Confirmation.ResendUntilDone` | identity-service/src/solanaClient.js:259-267 | The loop ends when the wait ends or after the timeout taken in seconds, and not before |
| `Confirmation.SettledAt` | identity-service/src/solanaClient.js:269-275 | The wait never ends if and only if no state of the run is settled |
| `Confirmation.ResendsOutliveTheTimer` | identity-service/src/solanaClient.js:259-267 | In every run whose setup threw, the transaction is resent for a thousand times as long as the timer takes |

## Left out

- Express wiring, routes, rate limits, logging, metrics, configuration and the queues of transcoding and images: no
  logic beyond calls into libraries.
- `apiHelpers.parseCNodeResponse`, `signatureSchemas.js`, token expiry jobs and the verification of service providers:
  short checks that would only add easy members.
- Blacklist: user and content values are integers, so `parseInt` of other text is not modelled; the content tables do
  not change while one call is under way; a failed redis call changes nothing.
- Servability: the CID of a query is never the empty string; of several rows with one id the first in storage order
  is looked up, as findAll gives no order.
- ClockLog: one user's part of the database at a time; statements of different transactions on one user do not
  interleave, since the increment locks the user's row until the end of the transaction.
- UserDeletion.DBManager.DeleteAllCNodeUserData: a rollback or commit that itself throws is not modelled; foreign keys
  are checked after each statement.
- FilesHash: clock bounds are integers, so a bound that parseInt turns into NaN is not modelled; an empty uuid or wallet
  counts as absent.
- ContentStore: removing a file works; the day does not change in the middle of one call; the rewriting of gateway
  addresses for image files is not modelled.
- ContentStore.Store.SaveFileFromBuffer: computing the CID and the path of the buffer does not fail.
- WriteQuorum: times are numbers, and a polling loop is the list of polls that fit into its duration; addresses are
  checked by a parameter in place of the regular expression for domain names; the retries of a queue are not modelled.
- WriteQuorum.AcceptedWriteSurvives: the loss of two nodes at once is not covered; what happens when the chain lists
  this node as its own secondary is the subject of `WriteQuorum.QuorumIsTwoCopiesExactlyWhen`.
- Json: numbers are integers, as floating point text is not the subject; strings are sequences of Unicode scalar values,
  so lone surrogates are not representable; the parser takes texts without white space and \u escapes below U+0100,
  which are all that the printers write.
- ApiSigning.TextsAgreeExactlyWhenOrdersAgree: numbers are integers of any size, and both printers write all their
  digits. JavaScript rounds integers beyond 2^53 and prints those from 1e21 on with an exponent, so for such numbers
  the statement does not speak of the original.
- Heartbeat.EmptyResponseIsNotJson: the text is refused by the parser of this model, which takes JSON texts without
  white space; the text in question has none outside its strings.
- ApiSigning: dates, undefined members and NaN in signed data are not modelled; md5, keccak and signatures are
  parameters.
- Heartbeat.Stream.Handle: a thrown string becomes one property per character of the basic plane and per pair of
  surrogates, where JavaScript lists the two surrogates separately; lone surrogates are not representable here.
- Heartbeat: a response has a status and an object; the numeric clock of the interval is a count of ticks.
- BullTruncation.TruncationIsIdempotent: lengths are below 2^53, as they are in JavaScript.
- CidPaths: `path.join` of a normalised storage root is concatenation; which strings the CID library accepts is a
  parameter.
- Sessions: a transaction whose begin, commit or rollback throws is taken as not committed; tokens are random, so a new
  one was never used before; a token is deleted only after its creation has finished.
- WalletLock: the timed runs are those of one wallet, since keys of different wallets are independent; a redis call that
  fails has no effect.
- WalletLock.WalletWriteLock.Acquire: an expiry of zero, which redis refuses, is excluded.
- Confirmation.ResendUntilDone: each resend takes no time of its own beside the delay between resends.
