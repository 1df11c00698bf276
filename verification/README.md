# Models and proofs for the vendored Redis

The repository carries a Redis 2.8 source tree. This project models the parts of it whose correctness is hard to see
from the code, in Dafny, and proves what they are for. Nothing here was executed; the models follow the code, also
where its comments say otherwise.

| part | files |
|---|---|
| the incrementally rehashed hash table, as a model, over histories, and as fields updated in place | Words, DictModel, DictHistory, DictTable |
| dictScan and SCAN | ScanCursor, DictScan, ScanRuns, ScanMiss, ScanLoss, ScanCommand |
| the safe iterator | IteratorModel, DictIterators |
| LZF | LzfFormat, LzfDecompress, LzfGreedy, LzfCompress |
| partial quicksort | SortSpec, PartialSort |
| the append-only file: text, commands, loading, rewriting, the server's protocol | AofFormat, AofCommands, AofEffects, AofReplay, AofRewrite, AofRebuild, AofAbsolute, AofFeed, AofDataset, AofServer, AofLimits |
| WATCH and EXEC | WatchHistory, WatchIndex, WatchServer |
| the intset | IntsetBytes, Intset |
| crc64 and the DUMP payload | CrcTable, Checksum, DumpPayload |
| bit counting, searching and combining | Popcount, Bitpos, Bitop |
| the linked list, the job queue, the random numbers | Adlist, BackgroundJobs, Rand48 |

How the pieces fit:

- A method stands for a C function that changes state or loops; its contract equates the new state with a function of
  the old one, or says outright what is computed. The laws are lemmas about those functions.
- The dictionary's laws are stated for any hash function: a key carries its hash.
- `AofServer.Server.Valid` is the protocol's invariant. While the log is on, the file followed by the buffer loads, at
  any time, to the dataset; while a child rewrites, so does its file followed by the rewrite buffer, by the clock that
  the child reads; without a child the rewrite buffer is empty. "Loads to" allows keys already past their expiry to be missing, because a rewrite drops
  them; when no key is past its expiry it is equality (`AofReplay.TrailsExact`). A server restarted from such a log
  has the invariant again (`AofServer.RestartSane`).
- `WatchServer.Server.Valid` ties every client's dirty flag to the history of watches, touches and forgets.

Where the code does less than it promises, the condition is part of the law and a concrete input shows that it is
needed:

- dictScan loses keys when the table shrinks by a factor of four or more in the middle of a scan: exactly when, for a
  call, in `ScanRuns.CoverageIffLowOnes`, and for a scan in `ScanLoss.LosesIffGap`; an input is
  `ScanMiss.ShrinkingScanMisses`. The comment at dict.c:673-675 promises more.
- SET with EX or PX and RESTORE with a time to live are logged with their relative times, and INCRBYFLOAT, logged as
  SET, loses the key's expiry. Among the commands modelled, and those not modelled that neither read the clock nor
  are rewritten for the log, these are the ones after which the log is no longer good (`AofCommands.LiveIsLogged`,
  `AofFeed.FeedLoads`, `AofServer.Server.Call`); inputs are `AofLimits.SetExMovesExpiry`,
  `AofLimits.RestoreMovesExpiry` and `AofLimits.IncrByFloatDropsExpiry`.
- The undoing of a short write trusts the recorded file size, which a failed fstat leaves stale
  (`AofFeed.FlushKeepsLog`, `AofServer.Server.Flush`, `AofLimits.StaleSizeLosesLog`).
- The rewriting child reads the clock after the fork. Its log is good for the dataset it was forked with if and only if
  no key passes its expiry between the parent's clock and that reading (`AofFeed.RewriteLoads`,
  `AofServer.Server.RewriteBackground`). Once the clock has passed the reading it is (`AofServer.Server.Tick`); a
  command before that may look up a key that expires in between (`AofServer.Server.Call`, exactly when it matters in
  `AofFeed.FirstCommandLoads`), and a key can disappear (`AofLimits.LateChildLosesKey`).

## Model

| member | source | states |
|---|---|---|
| Words.Rev | redis-stable/src/dict.c:654-662 | the mask-and-shift loop reverses all 64 bits of a word |
| Words.RevNatIsReverse | redis-stable/src/dict.c:654-662 | reading a word's bits in the opposite direction is reading its reversal as a number |
| Words.AndMask | redis-stable/src/dict.c:869-873 | masking a hash with a power of two less one takes its low bits, as a number below the size |
| DictModel.NextPower | redis-stable/src/dict.c:844-854 | the new size is a power of two, at least what was asked for, and less than twice it when the search moved |
| DictModel.ExpandOk | redis-stable/src/dict.c:210-237 | dictExpand fails exactly while rehashing or when the entries do not fit; otherwise it installs, as the only table or as a rehashing's target, the size asked for rounded up to a power of two, at least four, and the map is unchanged |
| DictModel.RehashOneOk | redis-stable/src/dict.c:243-280 | a rehash step keeps the map; with entries left the bucket it takes is in bounds, without any the new table takes over |
| DictModel.RehashOk | redis-stable/src/dict.c:243-280 | any number of rehash steps keeps the map and the invariant |
| DictModel.RehashFinishes | redis-stable/src/dict.c:243-280 | size + 1 steps always end a rehashing |
| DictModel.RehashStepOk | redis-stable/src/dict.c:309-311 | the single step other operations take is one rehash step when no safe iterator is active and none otherwise, and keeps the map |
| DictModel.ExpandIfNeededOk | redis-stable/src/dict.c:822-841 | without a table one of four buckets is made; a full table begins to move into one for at least twice its entries, when resizing is allowed or there are more than five entries a bucket; otherwise nothing changes; the map is kept |
| DictModel.ResizeOk | redis-stable/src/dict.c:198-207 | dictResize fails exactly when resizing is not allowed or under way; otherwise the target is the least power of two, from four on, that holds the entries |
| DictModel.OperationsMigrate | redis-stable/src/dict.c:314-500 | while a rehashing is under way and no safe iterator is active, find, delete and add move it one step on |
| DictModel.AddOk | redis-stable/src/dict.c:314-361 | dictAdd adds a key that is absent, refuses one that is present, and touches no other key |
| DictModel.FindOk | redis-stable/src/dict.c:481-500 | dictFind changes nothing that can be looked up |
| DictModel.ReplaceOk | redis-stable/src/dict.c:367-386 | dictReplace sets the value of a key, present or not, and of no other |
| DictModel.DeleteOk | redis-stable/src/dict.c:401-436 | dictDelete removes exactly one key and counts it off |
| DictHistory.HistoryRefinesMap | redis-stable/src/dict.c:210-500 | any history of adds, replaces, deletes, finds, expansions, resizes, rehash steps and iterator starts and stops is indistinguishable from one finite map, and dictSize is its size |
| DictHistory.StepOk | redis-stable/src/dict.c:210-500 | one operation changes each key's value, and the size, as it would in a plain map |
| DictTable.Dict.MoveChain | redis-stable/src/dict.c:262-275 | a bucket's entries are relinked one by one into the new table, and both counters follow |
| DictTable.Dict.SkipEmpty | redis-stable/src/dict.c:258-261 | the inner loop over empty buckets stays in bounds and stops at the first bucket that is not empty |
| DictTable.Dict.RehashOne | redis-stable/src/dict.c:246-278 | one turn of dictRehash's loop is the model's rehash step |
| DictTable.Dict.Rehash | redis-stable/src/dict.c:243-280 | dictRehash is the model's, and its result says whether there is more to do |
| DictTable.Dict.Expand | redis-stable/src/dict.c:210-237 | dictExpand updates tables, masks and counters as the model does, and the table it installs has the size asked for, rounded up |
| DictTable.Dict.Resize | redis-stable/src/dict.c:198-207 | dictResize is the model's |
| DictTable.Dict.KeyIndex | redis-stable/src/dict.c:862-884 | the bucket for a key, or that it is present in either table |
| DictTable.Dict.Add | redis-stable/src/dict.c:314-361 | dictAdd is the model's |
| DictTable.Dict.Find | redis-stable/src/dict.c:481-500 | dictFind returns what the map holds |
| DictTable.Dict.Replace | redis-stable/src/dict.c:367-386 | dictReplace is the model's |
| DictTable.Dict.Unlink | redis-stable/src/dict.c:401-436 | the entry found is unlinked from its chain in the table that has it |
| DictTable.Dict.Delete | redis-stable/src/dict.c:401-440 | dictDelete is the model's |
| DictTable.Dict.Scan | redis-stable/src/dict.c:748-817 | dictScan's cursor arithmetic and emission loop return the model's next cursor and exactly the entries, in number and order, that the model emits |
| ScanCursor.NextCursorRevNat | redis-stable/src/dict.c:807-814 | the next cursor, read in reverse, is the next multiple of the block size, or zero after the last |
| ScanCursor.BlockBits | redis-stable/src/dict.c:748-817 | the keys between a cursor and the next, in reversed order, are those that agree with the cursor under the mask |
| ScanCursor.CursorProgress | redis-stable/src/dict.c:748-817 | the reversed cursor strictly increases until it wraps to zero |
| DictScan.EmittedExactly | redis-stable/src/dict.c:748-817 | a call emits a key, with its value, if and only if the key's bucket is one the call visits |
| DictScan.EmittedTimes | redis-stable/src/dict.c:748-817 | a present key whose bucket the call visits is passed to the callback once, every other key never |
| DictScan.EmittedOnce | redis-stable/src/dict.c:748-817 | on one table or two, the keys a call emits are pairwise distinct, and every entry is as the dictionary holds it |
| DictScan.CallCovers | redis-stable/src/dict.c:748-817 | a call with an aligned cursor emits every present key of its block |
| ScanRuns.ScanCovers | redis-stable/src/dict.c:673-675 | a complete scan whose calls are all aligned returns every key present throughout, whatever else happens between the calls |
| ScanRuns.HalvingAligns | redis-stable/src/dict.c:792-804 | cursors stay aligned when the smaller table shrinks by at most half between calls |
| ScanRuns.ScanCoversHalving | redis-stable/src/dict.c:673-675 | a scan returns every key present throughout under any interleaving of changes, if whenever a call lands in a rehashing the smaller table is at least half the smaller table of the call before |
| ScanRuns.CoverageIffLowOnes | redis-stable/src/dict.c:792-804 | for two live tables, a call from a cursor emits all keys of its block if and only if the cursor has no clear bit below a set one between the two masks |
| ScanRuns.UnchangedScanOnce | redis-stable/src/dict.c:748-817 | with no changes, no key is returned by two calls |
| ScanRuns.UnchangedScanComplete | redis-stable/src/dict.c:748-817 | all that the calls of a scan of an unchanged dictionary emit holds every key of the dictionary exactly once, and no other |
| ScanLoss.LosesIff | redis-stable/src/dict.c:748-817 | for given table sizes and cursors of a whole scan, some dictionary with such tables loses a key that is present throughout if and only if there is a hash whose bucket no call comes to |
| ScanLoss.LosesIffGap | redis-stable/src/dict.c:792-804 | for every scan, whatever its tables: some dictionary loses a key if and only if some call's cursor has a gap between the masks and no later call comes to the bucket that the gap leaves out |
| ScanLoss.LosesIffMisaligned | redis-stable/src/dict.c:792-804 | in particular, when the smaller live table is never smaller than at a misaligned call before, a key is lost if and only if some call is misaligned |
| ScanMiss.ShrinkingScanMisses | redis-stable/src/dict.c:673-675 | the unconditional promise is false: a scan in which dictResize shrinks 64 buckets to 4 never returns a key that is present all the time |
| ScanCommand.Iterate | redis-stable/src/db.c:446-456 | SCAN's loop collects the calls' entries until the cursor is zero or enough keys are there |
| ScanCommand.ReplyCovers | redis-stable/src/db.c:446-456 | a SCAN command whose first call is aligned replies every present key whose hash lies between the command's cursor and the cursor replied, with its value, after what was collected before |
| ScanCommand.ReplyCursor | redis-stable/src/db.c:446-456 | the cursor a command replies is one that a call of dictScan returned: zero, or further on than the command's own |
| ScanCommand.ReplyStops | redis-stable/src/db.c:446-456 | a command replies all that its calls emit; it calls again while the cursor is not zero and fewer than count entries are there, and stops at cursor zero or with at least count |
| ScanCommand.UnchangedCommandsOnce | redis-stable/src/db.c:446-456 | SCAN commands on an unchanged dictionary, with any counts, reply every key exactly once |
| ScanCommand.CommandsCover | redis-stable/src/db.c:446-456 | a run of SCAN commands from cursor 0 back to 0, with any counts and any changes between the commands that shrink at most by half, replies every key present throughout with its value |
| ScanCommand.Filter | redis-stable/src/db.c:482-524 | the loop that deletes list nodes leaves exactly the keys not to be dropped, and their values where keys and values alternate |
| ScanCommand.KeptExactly | redis-stable/src/db.c:482-524 | an item is left by the filter if and only if it was there and its key is not to be dropped |
| ScanCommand.KeptConcat | redis-stable/src/db.c:482-524 | the filter works through the list in order: what it leaves of two lists after each other is what it leaves of each |
| ScanCommand.FilteredCover | redis-stable/src/db.c:446-524 | with pattern and expiry filters, for lists of keys and for lists in which values follow the keys: a key present throughout that no command's filter drops is in some command's filtered reply, with its value |
| IteratorModel.NextOk | redis-stable/src/dict.c:567-600 | dictNext returns a key still to come and takes just that one off, or NULL when none is to come |
| IteratorModel.StepKeeps | redis-stable/src/dict.c:567-600 | while an iterator is active, adding, replacing, finding, expanding, resizing, other iterators' starts and releases, and deleting anything but the entry to be returned next lose and repeat no key still to come |
| IteratorModel.SafeIterationOnce | redis-stable/src/dict.c:547-600 | a safe iteration that ran until NULL yielded every key present throughout exactly once, whatever was done on the way, also by other iterators |
| IteratorModel.IterationRestoresCount | redis-stable/src/dict.c:573-611 | at every point of a run the iterator is counted if and only if dictNext has been called; its release leaves the count as it was at the start but for the iterators others started and released |
| DictIterators.SafeIterator.Next | redis-stable/src/dict.c:567-600 | dictNext on the fields of the iterator is the model's, and the first call pauses rehashing |
| DictIterators.SafeIterator.Release | redis-stable/src/dict.c:602-611 | releasing takes the pause back |
| LzfDecompress.Decompress | redis-stable/src/lzf_d.c:56-149 | for any bytes the decoder ends, stays in both buffers, and succeeds exactly when the bytes are well formed and their meaning fits, which it then returns |
| LzfDecompress.CopyReference | redis-stable/src/lzf_d.c:95-145 | a byte-by-byte copy from behind the write position extends the output periodically, overlapping or not |
| LzfCompress.Compress | redis-stable/src/lzf_c.c:99-294 | for every hash table content: a positive result is the length of bytes that mean the input and the size of the greedy encoding, which is found whenever four bytes more than it are there; with enough room it succeeds within n + ceil(n/32) bytes; n equal bytes take at most 8 + 3 * ceil(n/264) |
| LzfCompress.Lookup | redis-stable/src/lzf_c.c:147-166 | a match is tried exactly when the slot points into the window behind the input's start, five bytes are left and three bytes agree |
| LzfCompress.MatchLength | redis-stable/src/lzf_c.c:169-210 | the match is as long as it can be: it ends at its limit or at bytes that differ |
| LzfGreedy.UniformSize | redis-stable/src/lzf_c.c:142-293 | from the third byte on equal bytes are references, whatever the table held: n of them take at most 8 + 3 * ceil(n/264) bytes |
| LzfGreedy.GreedyMatch | redis-stable/src/lzf_c.c:143-258 | a slot that can be followed makes a match of the greatest length, after which the two positions before its end are in the table |
| LzfGreedy.GreedyLiteral | redis-stable/src/lzf_c.c:260-273 | any other slot makes a literal |
| LzfCompress.RoundTrip | redis-stable/src/lzf_d.c:56-149 | compressing with any hash table and decompressing into any buffer that has room gives the input's length, and the input in the buffer's front |
| LzfCompress.PutReference | redis-stable/src/lzf_c.c:212-225 | a back reference of up to 264 bytes extends what the output means by the matched bytes |
| LzfFormat.DecodeConcat | redis-stable/src/lzf_d.c:64-148 | the meaning of a token stream continues from the meaning of its first part |
| LzfFormat.CopyBackMatches | redis-stable/src/lzf_d.c:95-145 | copying back over a match yields the matched bytes, also when source and target overlap |
| LzfFormat.CopyBackAt | redis-stable/src/lzf_d.c:95-145 | every byte copied is the byte the given distance before it |
| LzfFormat.LiteralForm | redis-stable/src/lzf_c.c:89-96 | 000LLLLL and L + 1 bytes are a literal run |
| LzfFormat.ShortForm | redis-stable/src/lzf_c.c:89-96 | LLLooooo oooooooo is a reference of L + 2 bytes at offset o + 1 |
| LzfFormat.LongForm | redis-stable/src/lzf_c.c:89-96 | 111ooooo LLLLLLLL oooooooo is a reference of L + 9 bytes at offset o + 1 |
| PartialSort.Pqsort | redis-stable/src/pqsort.c:180-185 | the array is permuted, and positions lrange..rrange hold, up to equivalence, what every full sort puts there, smaller elements left and greater ones right |
| PartialSort.Sort | redis-stable/src/pqsort.c:99-177 | the same for the recursion and its loop on a part of the array, each range strictly smaller than the one before |
| PartialSort.Partition | redis-stable/src/pqsort.c:126-150 | the two scans leave equal, smaller, greater and equal elements in that order |
| PartialSort.Gather | redis-stable/src/pqsort.c:152-156 | the equal elements are swapped from both ends to the middle |
| PartialSort.InsertionSort | redis-stable/src/pqsort.c:107-113 | short ranges are sorted by insertion |
| PartialSort.Med3 | redis-stable/src/pqsort.c:89-96 | one of the three positions, and its element is between the other two, for every total preorder |
| SortSpec.PlacedAgrees | redis-stable/src/pqsort.c:98-185 | an element with the smaller ones left and the greater ones right is equivalent to the element of any full sort at that place |
| AofFormat.CatGenericCommand | redis-stable/src/aof.c:372-395 | a command is printed as its count and then length and bytes of each argument |
| AofFormat.AtoiOfDecInt | redis-stable/src/aof.c:409-427 | a number printed in decimal is read back |
| AofFormat.ParsePrinted | redis-stable/src/aof.c:551-590 | reading a printed command gives its arguments back and leaves the text behind it |
| AofFormat.ParseAppend | redis-stable/src/aof.c:551-590 | a command that is read whole is read the same with more text behind it |
| AofFormat.CommandRead | redis-stable/src/aof.c:551-590 | what is read as a command begins with a line of * and the number of its arguments, at least one |
| AofFormat.BulkRead | redis-stable/src/aof.c:571-585 | what is read as an argument is a line of $ and its length, its bytes, and two more |
| AofReplay.Load | redis-stable/src/aof.c:526-617 | the loading loop is replay |
| AofReplay.ReplayAppend | redis-stable/src/aof.c:526-617 | a longer log continues from the state the shorter one loads to |
| AofReplay.ReplayPrinted | redis-stable/src/aof.c:372-395 | loading printed commands executes those commands |
| AofEffects.SetEffect | redis-stable/src/t_string.c:65-142 | SET stores exactly the value given, with the last time given in milliseconds from now or no expiry, if and only if the time is a positive number, NX finds no key and XX finds one; otherwise, and to other keys, nothing happens |
| AofEffects.SetRefused | redis-stable/src/t_string.c:93-142 | SET with anything else for options changes nothing |
| AofEffects.SetExEffect | redis-stable/src/t_string.c:135-143 | SETEX and PSETEX store value and expiry if the seconds or milliseconds are positive |
| AofEffects.ExpireEffect | redis-stable/src/db.c:806-864 | EXPIRE, PEXPIRE, EXPIREAT and PEXPIREAT set the expiry in their unit and from their base; a time not after now deletes the key, and DEL is propagated, except while loading |
| AofEffects.DelEffect | redis-stable/src/db.c:235-248 | DEL removes all its keys and no other |
| AofEffects.RPushEffect | redis-stable/src/t_list.c:297-334 | RPUSH puts its arguments at the list's end and keeps the expiry; another type changes nothing |
| AofEffects.SAddEffect | redis-stable/src/t_set.c:250-275 | SADD adds its arguments and keeps the expiry; it is clean if none was new |
| AofEffects.ZAddEffect | redis-stable/src/t_zset.c:841-978 | ZADD gives each member the last score named for it; it is clean if all members have the scores named already |
| AofEffects.HMSetEffect | redis-stable/src/t_hash.c:498-517 | HMSET gives each field the last value named for it |
| AofEffects.RestoreEffect | redis-stable/src/migrate.c:87-126 | RESTORE stores the payload's value at an absent key, with its time to live from now, zero being none |
| AofEffects.IncrByFloatEffect | redis-stable/src/t_string.c:380-412 | INCRBYFLOAT stores the sum, keeps the expiry and is propagated as SET of the sum |
| AofCommands.LiveIsLogged | redis-stable/src/aof.c:434-482 | a command that is not dirty changes nothing; what is logged for a dirty one has its effect whenever it is loaded, EXPIRE, PEXPIRE, EXPIREAT, SETEX and PSETEX being re-timed, but for SET with EX or PX and RESTORE with a time to live if and only if it is loaded at the millisecond of their execution, and for INCRBYFLOAT if and only if the key has no expiry |
| AofCommands.RelativeLogged | redis-stable/src/aof.c:452-466 | SET with EX or PX and RESTORE with a time to live are logged unchanged: loading reproduces the expiry if and only if it is done at the millisecond they were executed |
| AofCommands.IncrByFloatLogged | redis-stable/src/t_string.c:380-412 | INCRBYFLOAT keeps the key's expiry and is logged as a SET, which removes it: reproduced if and only if the key has none |
| AofCommands.ExpireLogged | redis-stable/src/db.c:806-847 | EXPIRE and its variants, including the deletion of a key whose time has passed, are reproduced by their log entry |
| AofCommands.SetExLogged | redis-stable/src/t_string.c:65-91 | SETEX and PSETEX are reproduced by SET and PEXPIREAT |
| AofReplay.LogTrails | redis-stable/src/aof.c:434-482 | a copy of the dataset that lacks only keys past their expiry at some time still does so after a command that looks up no such key and its log entry: if and only if a relative time is loaded at the millisecond of execution, and INCRBYFLOAT met no expiry |
| AofReplay.TrailsExact | redis-stable/src/db.c:759-791 | when no key is past its expiry, such a copy is the dataset itself |
| AofFeed.FeedLoads | redis-stable/src/aof.c:434-482 | a log that loads at any time to the dataset does so again, for the new dataset, with what a dirty command feeds to it, if and only if the command is none of SET with EX or PX, RESTORE with a time to live, and INCRBYFLOAT on a key with an expiry |
| AofFeed.FlushKeepsLog | redis-stable/src/aof.c:264-351 | whatever write and ftruncate do, file followed by buffer is unchanged if and only if a truncation goes by the file's true size; a complete write moves the buffer to the file, a short one its part, a failed or undone one nothing; a true size stays true |
| AofRewrite.RewriteItems | redis-stable/src/aof.c:653-706 | a collection of any length is printed in commands of at most 64 items, each opened with the count of the arguments that follow |
| AofRewrite.ChunkSizes | redis-stable/src/aof.c:653-706 | no command has more than 64 items, and all but the last have that many |
| AofRewrite.RewriteObject | redis-stable/src/aof.c:653-880 | each type of value is printed as its commands |
| AofRewrite.RewriteKey | redis-stable/src/aof.c:930-965 | a key past its expiry is left out; others are printed with value and expiry |
| AofRewrite.RewriteAppendOnlyFile | redis-stable/src/aof.c:889-968 | the whole dataset is printed, a SELECT before each database that is not empty |
| AofRebuild.GroupsRebuild | redis-stable/src/aof.c:653-880 | pushing a collection's items, in any iteration order, rebuilds the collection |
| AofRebuild.ChunksRebuild | redis-stable/src/aof.c:653-880 | however the items are cut into commands, executing them in turn stores what one command would |
| AofRebuild.RewriteRebuilds | redis-stable/src/aof.c:889-968 | the rewritten log loads, at any time, to every unexpired key with its value and absolute expiry, in every database, and to nothing else |
| AofRebuild.RewriteKeeps | redis-stable/src/aof.c:930-965 | said of keys: those without expiry or with one not before the clock are there, as they were, and no others |
| AofFeed.RewriteLoads | redis-stable/src/aof.c:889-968 | the log a child leaves is good for the dataset it was forked with, by the parent's clock, if and only if no key passes its expiry between that clock and the child's reading of its own |
| AofFeed.FirstCommandLoads | redis-stable/src/aof.c:1005-1054 | for the first command after a fork, executed before the child reads the clock: what the child writes stays good if and only if the command's log entry, executed without the keys that will have expired, leaves what the command leaves |
| AofAbsolute.AbsoluteTimeless | redis-stable/src/aof.c:526-617 | a log of commands with absolute times loads to the same dataset whenever it is loaded |
| AofAbsolute.LoggedAbsolute | redis-stable/src/aof.c:434-482 | what any dirty command but SET with EX or PX and RESTORE with a time to live logs has absolute times only |
| AofAbsolute.RewriteAbsolute | redis-stable/src/aof.c:889-968 | a rewrite prints absolute times only |
| AofFeed.RestartLoads | redis-stable/src/aof.c:526-617 | a log that is good for a dataset reloads, at any later time, to a dataset that lacks at most keys past their expiry, and is good for that one |
| AofDataset.RunSane | redis-stable/src/aof.c:889-968 | the modelled commands keep collections non-empty, expiries not before 1970, and strings and times within what a rewrite can print, if a RESTOREd payload does |
| AofDataset.OrdersExist | redis-stable/src/aof.c:910-926 | every dataset has an order in which iterators yield its keys and members |
| AofServer.Server.AppendToRewriteBuffer | redis-stable/src/aof.c:89-126 | text is spread over blocks of 10 MB, of which all but the last are full |
| AofServer.Server.RewriteBufferSize | redis-stable/src/aof.c:77-86 | the size computed from the last block is the length of the contents |
| AofServer.Server.WriteRewriteBuffer | redis-stable/src/aof.c:131-151 | -1 exactly when some write was not complete, otherwise all contents reached the file |
| AofServer.Server.Feed | redis-stable/src/aof.c:434-482 | the text goes to the buffer while the log is on and to the rewrite buffer while a child lives, with a SELECT when the database changes |
| AofServer.Server.Flush | redis-stable/src/aof.c:230-351 | every write and truncation result: what file, buffer and recorded size become; file and buffer stay the same text if and only if a truncation goes by the file's true size, and then the invariant is kept; exit only for the fsync policy always |
| AofServer.Server.ExpireIfNeeded | redis-stable/src/db.c:743-791 | a key past its expiry is deleted and the deletion fed, the invariant kept |
| AofServer.Server.Call | redis-stable/src/redis.c:1784-1791 | a command changes the dataset as executed; the log stays good if and only if the command was not a dirty one among SET with EX or PX, RESTORE with a time to live and INCRBYFLOAT on a key with an expiry; so does what a child writes, if it has read the clock or the command sees no key that expires before it does |
| AofServer.Server.RewriteBackground | redis-stable/src/aof.c:1005-1054 | after a fork the child's file loads to the dataset, by any clock, if and only if no key passes its expiry between that clock and the child's, and the invariant holds; a failed fork changes nothing; every dataset the invariant allows can be rewritten |
| AofServer.Server.Tick | redis-stable/src/aof.c:896-938 | once the clock has passed the child's reading, the child's file and the rewrite buffer are as good as the log by the server's own clock |
| AofServer.Server.RewriteDone | redis-stable/src/aof.c:1093-1227 | child done or failed, with every result of open, write, rename and fstat: the switch happens only when all succeed, and the invariant is kept either way |
| AofServer.Server.Start | redis-stable/src/aof.c:192-209 | the log is switched on to wait for its first rewrite, or stays off when open or fork fails or a child is running, the invariant kept |
| AofServer.Server.Stop | redis-stable/src/aof.c:165-188 | the buffer is flushed, the child killed and its buffer dropped, whatever the write and the truncation do; a complete flush leaves a file that loads to the dataset |
| AofServer.Server.Loaded | redis-stable/src/aof.c:619-631 | a server that loads a log at start has the dataset it replays to, and the invariant if that dataset is one a rewrite can print and the log's times are absolute |
| AofServer.RestartSane | redis-stable/src/aof.c:619-631 | the log of a server that had the invariant, flushed, meets both conditions, and reloads to its dataset but for keys past their expiry |
| AofLimits.StaleSizeLosesLog | redis-stable/src/aof.c:1080-1089 | after a failed fstat a short write can truncate the whole log: a logged key is gone |
| AofLimits.LateChildLosesKey | redis-stable/src/aof.c:896-938 | a child that reads the clock late drops a key to which the parent has since given a later expiry |
| AofLimits.SetExMovesExpiry | redis-stable/src/aof.c:452-469 | SET k v EX 10 executed at 0 and loaded at 5000 expires at 15000 instead of 10000 |
| AofLimits.RestoreMovesExpiry | redis-stable/src/migrate.c:87-126 | RESTORE k 10000 executed at 0 and loaded at 5000 expires at 15000 instead of 10000 |
| AofLimits.IncrByFloatDropsExpiry | redis-stable/src/t_string.c:396-411 | INCRBYFLOAT on a key that expires at 10000: loaded from the log, the key never expires |
| IntsetBytes.DecodeEncode | redis-stable/src/intset.c:55-94 | an integer stored in two, four or eight bytes is read back |
| IntsetBytes.LittleEndian | redis-stable/src/intset.c:55-94 | two, four and eight bytes, least significant first |
| IntsetBytes.FitsRange | redis-stable/src/intset.c:45-52 | the encodings hold the signed integers of 16, 32 and 64 bits |
| IntsetBytes.ValueEncodingLeast | redis-stable/src/intset.c:45-52 | a value fits an encoding if and only if its own is no larger |
| IntsetBytes.WidenStep | redis-stable/src/intset.c:167-171 | widening from the back never overwrites a narrow value that is still unread |
| IntsetBytes.ValuesInsert | redis-stable/src/intset.c:182-201 | moving the tail up and storing inserts one value and keeps the others |
| IntsetBytes.ValuesRemove | redis-stable/src/intset.c:182-201 | moving the tail down removes one value and keeps the others |
| Intset.Intset.Search | redis-stable/src/intset.c:115-154 | found if and only if in the set, at the position reported; otherwise the position where it belongs |
| Intset.Intset.UpgradeAndAdd | redis-stable/src/intset.c:157-180 | all values are kept, widened in place, and a value that did not fit is at the end its sign says |
| Intset.Intset.Add | redis-stable/src/intset.c:204-231 | the set gains the value, success says whether it was new, values stay increasing and the encoding is the larger of the two |
| Intset.Intset.Remove | redis-stable/src/intset.c:234-251 | the set loses the value, success says whether it was there, values stay increasing |
| Intset.Intset.Find | redis-stable/src/intset.c:254-257 | membership, for values of any width |
| Intset.CountIncreasing | redis-stable/src/intset.c:275-277 | the number of values stored is the size of the set |
| CrcTable.EntryIsDivision | redis-stable/src/crc64.c:43-171 | each of the 256 constants is its index divided by the polynomial for eight bits |
| CrcTable.TopByte | redis-stable/src/crc64.c:43-171 | no two entries of the table share their top byte: the index can be recovered from it |
| Checksum.Crc64 | redis-stable/src/crc64.c:173-181 | the loop folds the table step over the bytes |
| Checksum.CheckValue | redis-stable/src/crc64.c:183-191 | the checksum of 123456789 is e9c6d914c4b8d9ca |
| Checksum.CrcIsBits | redis-stable/src/crc64.c:3-12 | the table-driven checksum equals division bit by bit, for every input and starting value |
| Checksum.StepInjective | redis-stable/src/crc64.c:176-179 | a step is injective in the value before and in the byte |
| Checksum.LastBytesKnown | redis-stable/src/crc64.c:173-181 | the last k input bytes, up to eight, are determined by the k top bytes of the result |
| DumpPayload.CreateDumpPayload | redis-stable/src/migrate.c:10-37 | the content, the version 6 in two bytes, and the checksum of both in eight, least significant bytes first |
| DumpPayload.VerifyDumpPayload | redis-stable/src/migrate.c:43-60 | accepts exactly what has ten bytes, the version 6 and, in the last eight, the checksum of what precedes them, least significant byte first |
| DumpPayload.OtherVersionRefused | redis-stable/src/migrate.c:52-54 | a payload with another version is refused, whatever its checksum |
| DumpPayload.CreatedAccepted | redis-stable/src/migrate.c:10-60 | every created payload is accepted |
| DumpPayload.DamageRejected | redis-stable/src/migrate.c:43-60 | a payload that differs from a created one only within eight consecutive bytes, in content, version or checksum, is rejected |
| Popcount.SwarCounts | redis-stable/src/bitops.c:84-95 | the masked additions and the multiplication count the ones of four bytes |
| Popcount.TableCounts | redis-stable/src/bitops.c:65-65 | the byte table counts ones |
| Popcount.Popcount | redis-stable/src/bitops.c:61-101 | for every start address and length the result is the number of ones in the string |
| Bitpos.Bitpos | redis-stable/src/bitops.c:110-188 | the first position with the wanted bit in the string continued by zeros, -1 if and only if a one is wanted and there is none; the panic is not reached |
| Bitpos.ScanWord | redis-stable/src/bitops.c:172-183 | the moving mask finds the first wanted bit of a word that has one |
| Bitop.FastPath | redis-stable/src/bitops.c:356-413 | word by word, the bytes done are those of all sources combined |
| Bitop.Bitop | redis-stable/src/bitops.c:306-452 | byte for byte the sources zero-padded to the longest are combined, for any number and lengths of keys and missing ones; NOT with several keys is refused |
| Bitop.FoldBits | redis-stable/src/bitops.c:415-431 | a bit is set exactly where all sources have it (AND), one has (OR), an odd number have (XOR), or the source has not (NOT) |
| Bitop.MaxLengthIs | redis-stable/src/bitops.c:313-341 | the result is as long as the longest source |
| WatchHistory.StepTouched | redis-stable/src/multi.c:261-278 | how a step of the history changes which watched keys count as touched |
| WatchServer.FlushTouches | redis-stable/src/multi.c:284-305 | a flush touches exactly the keys that it removes |
| WatchServer.EffectTouches | redis-stable/src/multi.c:261-278 | every effect of a command touches its keys, in order |
| WatchIndex.LinkedAdd | redis-stable/src/multi.c:202-229 | watching a key keeps client lists and key lists mirror images without duplicates |
| WatchIndex.LinkedDrop | redis-stable/src/multi.c:233-257 | dropping a watched key from both sides keeps them so |
| WatchServer.TouchFaithful | redis-stable/src/multi.c:261-278 | flagging the watchers of touched keys keeps every client's flag equal to: a key it watches was touched since it began to |
| WatchServer.Server.WatchForKey | redis-stable/src/multi.c:202-229 | the key is watched once more at most, lists and flags stay right |
| WatchServer.Server.UnwatchAllKeys | redis-stable/src/multi.c:233-257 | the client is taken off every key's list, empty lists are removed |
| WatchServer.Server.TouchWatchedKey | redis-stable/src/multi.c:261-278 | exactly the clients watching the key are flagged |
| WatchServer.Server.TouchWatchedKeysOnFlush | redis-stable/src/multi.c:284-305 | exactly the clients watching a key that exists in a flushed database are flagged |
| WatchServer.Server.Watch | redis-stable/src/multi.c:307-317 | refused inside MULTI; otherwise the named keys are watched in the client's database |
| WatchServer.Server.Discard | redis-stable/src/multi.c:95-102 | the queue, the flags and the watched keys are gone |
| WatchServer.Server.Exec | redis-stable/src/multi.c:114-182 | the queue is run if and only if queueing met no error and no watched key was touched since it was watched; the reply and the keys afterwards in each case |
| WatchServer.Server.Process | redis-stable/src/redis.c:2033-2044 | inside MULTI commands are queued, outside they run |
| WatchServer.Server.Free | redis-stable/src/networking.c:629-672 | a client that leaves is forgotten by every key |
| Adlist.List.AddNodeHead | redis-stable/src/adlist.c:80-98 | the value is first, both chains agree, no memory changes nothing |
| Adlist.List.AddNodeTail | redis-stable/src/adlist.c:106-124 | the value is last, both chains agree, no memory changes nothing |
| Adlist.List.InsertNode | redis-stable/src/adlist.c:126-153 | the value stands before or after the given node |
| Adlist.List.DelNode | redis-stable/src/adlist.c:159-172 | the node is gone from both chains, the others keep their order |
| Adlist.List.Rotate | redis-stable/src/adlist.c:328-341 | the last node is the first |
| Adlist.List.Index | redis-stable/src/adlist.c:313-325 | the node at a position counted from either end, NULL outside |
| Adlist.List.SearchKey | redis-stable/src/adlist.c:285-306 | the first node that matches, NULL if none does |
| Adlist.List.Dup | redis-stable/src/adlist.c:242-274 | the copy has the duplicated values in order; it fails exactly when there is no memory for the list or a node, or a duplication fails |
| Adlist.List.DeleteWhileIterating | redis-stable/src/adlist.c:207-232 | an iteration from either end that deletes current nodes visits every value once, in its order, and leaves those not deleted |
| BackgroundJobs.JobsRunInOrder | redis-stable/src/bio.c:126-199 | under every interleaving jobs run once, in submission order, pending is the queue's length, and pending zero means that all have run |
| BackgroundJobs.JobFinishes | redis-stable/src/bio.c:140-190 | a job the worker takes is carried out and removed whatever producers add meanwhile |
| Rand48.Generator.Next | redis-stable/src/rand.c:80-93 | the limb arithmetic with its carries computes (0x5DEECE66D * X + 0xB) mod 2^48 |
| Rand48.Generator.Lrand48 | redis-stable/src/rand.c:71-74 | the result is the new state's 31 high bits |
| Rand48.Generator.Seed | redis-stable/src/rand.c:76-78 | the seed's 32 bits over 0x330E |
| Rand48.Generator.Draw | redis-stable/src/rand.c:71-93 | n draws are the high bits of the first n states of the generator |

## Left out

- Tables of the dictionary are sequence fields, and chains are sequences, not arrays of linked entries: the update of a
  table is an assignment to the field, and aliasing of entries is not captured.
- Dictionary sizes stay below LONG_MAX; hashes have as many bits as cursors; rehashidx is unbounded.
- The unsafe iterator and its fingerprint, random keys, dictRehashMilliseconds, dictEmpty and dictRelease.
- SCAN's option parsing, the pattern language (a filter is any predicate), and SCAN over encodings that are not hash
  tables.
- LZF: pointers into the hash table are offsets into the input, any integer being possible; the compressor's output
  buffer has the one spare byte its code needs; the two bytes read from an input of one byte are arbitrary.
- pqsort: elements are compared and swapped whole; element sizes, swap types and alignment are not modelled.
- AofServer.Server.Call: commands other than SET, SETEX, PSETEX, EXPIRE, PEXPIRE, EXPIREAT, PEXPIREAT, DEL, RPUSH,
  SADD, ZADD, HMSET, RESTORE and INCRBYFLOAT are one arbitrary function of the dataset and their arguments: they do not
  read the clock or draw random numbers, and are logged as given, which leaves out EVAL, SPOP, HINCRBYFLOAT, MIGRATE
  and blocking pops. They must treat keys past their expiry as expireIfNeeded does, and leave a dataset a rewrite can
  print. The times commands name are within a C long long.
- RESTORE's payload and INCRBYFLOAT's sum are arbitrary functions; a payload holds a value as DUMP writes it.
- AofServer.Server.RewriteDone: a child that was successful has read the clock, and the server's has reached that time.
- The append-only file: MULTI and EXEC brackets, fsync and its timing, loading errors other than their being errors,
  slaves, scripts, and a closed descriptor number being reused.
- Sorted-set scores are the text they are printed as; the round trip of %.17g is not modelled.
- AofRewrite.RewriteObject: a value's encoding (ziplist, intset, hash table and so on) is not modelled, only the order
  in which its iterator yields items; the four rewrite functions share one loop.
- A key's expiry of -1 is no expiry, as getExpire reports it.
- WATCH: a command is the list of keys it modifies and databases it flushes; keys changed without being signalled, as
  by MOVE and by lazy expiry, do not count as touched. Subscriptions, replies and MULTI propagation.
- The intset's header is not part of the buffer; lengths stay below 2^31; byte order is little-endian.
- crc64: a word is its eight bytes, least significant first. The object encoding inside a payload is any byte string.
- Bitpos.Bitpos: a byte is its bits and an unsigned long its 64 bits; the host is little-endian.
- Popcount.BitsInByte: the table's 256 constants are given as one row of sixteen and the rows' first entries.
- Bitop.Bitop: wrong types and unknown operation names are refused before the part modelled; an operation on an
  unsigned long acts on its bytes.
- The linked list lives in an explicit memory of cells instead of heap objects; freeing of values is not modelled.
- BackgroundJobs: the steps are those between taking and releasing the lock; thread cancellation is not modelled.
- The Rails application, the event loop, networking, configuration, persistence to RDB, replication and scripting.
