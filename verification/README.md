# A verified model of sql-resp

sql-resp is a Redis server whose keyspace lives in six relational tables. This project models its hard
core in Dafny and proves what the parts promise over every input, every run and every interleaving that
the program allows. `dafny verify dfyconfig.toml` checks all of it.

The project is layered the way the program is.

- **Tables and keyspace.** `Database.dfy` holds the six tables with their primary keys and the cascading
  delete; `Keyspace.dfy` says what each command means on a plain map from (database, key) to a typed value
  and a deadline. The class `StoreCore.Store` has one method per SQL statement, and the store operations
  (`Store.dfy`, `StoreLists.dfy`, `StoreTables.dfy`, `StoreKeys.dfy`) are written against those statements
  and proved to be their keyspace operation. `StoreRuns.RunEvents` carries this to whole runs, so
  everything that `Runs.dfy` proves about runs on the keyspace holds of the tables, and so do the laws
  between commands in `Laws.dfy`. `StringCommands.dfy`
  adds the two handlers that make several store calls, MSET and MGET.
- **Algorithms.** `Glob.dfy` (the backtracking matcher against a declarative language), `ListEdits.dfy`
  (index spans, in-place reversal, LREM), `Ranking.dfy` (the order statistics of sorted sets),
  `Placeholders.dfy` (the rewriting of `?` for PostgreSQL) and `Decimal.dfy` (64-bit integers as text).
- **Wire format.** `Resp.dfy`: RESP2 values, printing, stream reading, inline commands, and the reader and
  writer objects. The format is that of the Redis serialization protocol specification (RESP2), sections
  "Simple strings", "Integers", "Bulk strings", "Arrays" and "Inline commands".
- **Connections.** `Session.dfy` (lookup, arity, SELECT, MULTI / EXEC / DISCARD), `Broker.dfy` (pub/sub),
  `Server.dfy` (the password gate, pub/sub commands and the read loop) and `Network.dfy` (several
  connections in any interleaving). Handlers are arbitrary functions on an arbitrary world, so the results
  about traces do not depend on what the store does.

Reading choices. A string is a sequence of bytes, one `char` each. A store call reads the clock once and
the clock never goes back; the program reads it again between lazy expiry and the type check, so a key that
dies between the two readings is outside the model. A panic and an overflow of the goroutine's stack end the
program: a run stops there. The largest block that the Go runtime grants, and the nested calls that the stack
has room for, are parameters of the reader and of the pattern matcher. Scores are the reals with two
infinities. Go's Unicode `strings.ToUpper` is any function that agrees with the usual one on ASCII text.

Places where the code does not keep the general promise are modelled as they are, and the exact condition
under which the promise holds is proved; in brackets a lemma with an input that breaks it:

| promise | holds exactly when | lemma |
|---|---|---|
| a glob pattern decides every key | no prefix of the key reaches an unclosed class and finds its next character in it (there the matcher panics), or reaches a star for whose nested call the stack has no room (there it overflows) | `Glob.GlobMatch` (`UnclosedPanics`, `StarsOverflow`) |
| LREM removes the last \|count\| occurrences | count is not the least int64, or the value does not occur | `ListEdits.RemKeepsPromise` (`LeastCountKeeps`) |
| RENAME keeps the value under the new name | the two names differ | `Runs.RenameKeepsValue` (`RenamedAway`) |
| DEL's reply ignores dead rows | it names no dead row that is still stored | `Runs.DelCountsDeadRows` (`DeadRowsSeen`) |
| SINTER / SDIFF is the set algebra of the live sets | the first key is not a dead row with a member that survives the fold | `Runs.InterIsIntersection`, `Runs.DiffIsDifference` (`DeadRowsSeen`) |
| unsubscribing from everything leaves nothing | no channel is held twice | `Channels.UnsubscribeAllLeaves`, `Server.HangUpLeaves` (`Channels.OneLeft`) |
| a rewritten query means what its placeholders say | the program and PostgreSQL's scanner agree on which `?` stand outside literals, quoted names, dollar quotes and comments, none of them is right after an identifier or a `$` or right before a digit or a letter, and the query has no parameter of its own | `Placeholders.ScanIsMeant` (`TakenOn`, `TakenIn`, `TakenBefore`, `LimitTaken`, `DollarTaken`) |
| MSET writes every pair | no key is alive with another type at its turn (the pairs before such a key stay written) | `StringCommands.MSetExactly` (`HalfWritten`) |
| an encoded value decodes to itself | no simple or error string in it contains a newline, and no part is too large for the reader or nested too deep for its stack | `Resp.RoundTripExactly` (`NewlineSpoils`, `NestedPanics`) |
| reading a client's input does not end the server | no line, length header or inline command that the reader begins is too large for its buffer and no array with elements is begun where the stack has no room for them, or a QUIT came before (a password is not asked for) | `Resp.StreamPanicsExactly`, `Server.StopsExactly` (`OneLineStopsServer`, `NestedHeadersStopServer`) |
| ZRANK is the position in ZRANGE | no other member has the same score and comes first | `Ranking.RankIsPositionExactly` (`TiesShareARank`) |

The repository's README (line 140) and PRD (line 83) say that EXEC runs its queue inside one SQL
transaction. The code runs it command by command; the model follows the code and claims sequential
equivalence only. Likewise SET on a key of another type is refused with a type error, as the code does.

## Model

| member | source | states |
|---|---|---|
| Decimal.WrapSum | internal/store/strings.go:38 | wrapping a 64-bit sum early or late makes no difference, so a run of additions is one sum modulo 2^64 |
| Decimal.ParseFormat | internal/store/strings.go:30-43 | parsing undoes decimal printing on all of int64 |
| Decimal.DigitTable | internal/db/postgres.go:134-145 | the digits are 0 to 9, each worth its place |
| Decimal.ParsesExactly | internal/store/strings.go:30-36 | parsing accepts exactly an optional sign and decimal digits whose value is an int64, and gives that value |
| Decimal.PlacesCount | internal/store/strings.go:30-43 | each digit is worth ten times those after it; -120 is written so |
| Glob.GlobMatch | internal/store/store.go:423-476 | the backtracking loop answers yes exactly when the key can be cut into one piece per token of the pattern, each fitting; it ends the program exactly when a matched prefix reaches an unclosed class whose characters contain the next one, or a star for whose nested call the stack has no room; it always ends |
| Glob.EnoughStack | internal/store/store.go:431-432 | the stack matters exactly to a pattern with more stars before its end than there is room for nested calls |
| Glob.InClass | internal/store/store.go:453-461 | the class scan finds the character exactly when it is among the class characters |
| Glob.StarMiss | internal/store/store.go:426-436 | a star fails only when the rest of the pattern fails at every position |
| Glob.ParseConcat | internal/store/store.go:423-476 | the tokens of a closed pattern followed by another are the tokens of both |
| Glob.PatternConcat | internal/store/store.go:423-476 | a closed `p` followed by any `q` does to a text what `q` does to what is left after a match of `p`: yes or the end of the program |
| Glob.Wildcards | internal/store/store.go:426-442 | `?` matches exactly the texts of one character, `*` every text, the empty pattern the empty text |
| Glob.Singles | internal/store/store.go:443-472 | a class matches exactly one of its characters, any other character exactly itself |
| Glob.UnclosedClass | internal/store/store.go:443-465 | an unclosed class panics on a text that starts with one of its characters and matches no other |
| Glob.HelloMatches | internal/store/store.go:437-442 | `h?llo` matches `hello` whatever its second character |
| Glob.UnclosedPanics | internal/store/store.go:443-465 | `[a` panics on `a` |
| Glob.StarsOverflow | internal/store/store.go:431-432 | `**a` overflows on every key where there is room for one nested call |
| ListEdits.ReverseInPlace | internal/store/lists.go:290-292 | swapping from both ends reverses the first n elements of the array and touches nothing else |
| ListEdits.ReverseFill | internal/store/lists.go:77-80 | the reverse fill of LPUSH gives the values last first |
| ListEdits.Filter | internal/store/lists.go:295-303 | the counted filter drops the first `limit` occurrences, or all, and counts them |
| ListEdits.RemoveValue | internal/store/lists.go:285-309 | the two reversals and the filter together give the specified result for every int64 count |
| ListEdits.RemKeepsPromise | internal/store/lists.go:273-315 | what LREM does is what is promised if and only if count is above the least int64 or the value does not occur |
| ListEdits.RemSurvivors | internal/store/lists.go:285-309 | with count > 0 LREM leaves what is not among the first count occurrences, with count < 0 what is not among the last, with 0 what is no occurrence |
| ListEdits.RemFromBothEnds | internal/store/lists.go:285-309 | on a b a, LREM 1 a leaves b a and LREM -1 a leaves a b |
| ListEdits.LeastCountKeeps | internal/store/lists.go:288 | with the least int64 as count nothing is removed where the value occurs |
| ListEdits.PromisedLength | internal/store/lists.go:273-315 | removed plus kept is the old length, and min(\|count\|, occurrences) are removed, or all for count 0 |
| ListEdits.HeadSurvivors | internal/store/lists.go:295-303 | removing from the head keeps, in order, exactly the elements that are not among the first k occurrences |
| ListEdits.TailSurvivors | internal/store/lists.go:285-309 | removing from the tail keeps, in order, exactly the elements that are not among the last k occurrences |
| ListEdits.Span | internal/store/lists.go:168-184 | the clamped bounds select exactly the indices between the normalised start and stop |
| Ranking.RankedIsRanking | internal/store/zsets.go:171-173 | the sorted member sequence is a permutation of the members in (score, member) order |
| Ranking.RankingUnique | internal/store/zsets.go:171-173 | there is only one such permutation |
| Ranking.RankedByNumber | internal/store/zsets.go:171-173 | ZRANGE lists members by the size of their scores, -inf first, +inf last, equal scores in dictionary order |
| Ranking.TextLessIsLexical | internal/store/zsets.go:172 | the member order is that of a dictionary over bytes |
| Ranking.RankIsFirstPosition | internal/store/zsets.go:114-140 | the number of lower scores is the position, in the order of ZRANGE, of the first member with the same score |
| Ranking.RankIsPositionExactly | internal/store/zsets.go:114-140 | ZRANK is the member's own position in ZRANGE if and only if the member comes first among those of its score |
| Ranking.TiesShareARank | internal/store/zsets.go:123 | two members of equal score get the same rank, so ZRANK is not always the position |
| Ranking.RankCountsSmaller | internal/store/zsets.go:121-127 | ZRANK counts the members with a smaller number or -inf as score |
| Ranking.ByScoreIsSlice | internal/store/zsets.go:189-228 | the members between two bounds, sorted, are a contiguous slice of the whole ranking |
| Ranking.IntervalOfNumbers | internal/store/zsets.go:189-228 | a score interval holds exactly the members whose number lies in it, its ends included or not |
| Ranking.CountsSplit | internal/store/zsets.go:231-251 | the members below x and those from x up sum to the cardinality |
| Sequences.IndexOf | internal/store/lists.go:245-251 | the first position of the pivot, or the length when it does not occur |
| Runs.StepReplies | internal/store/store.go:40-71 | the reply of a command depends only on the rows alive at its time, unless a DEL names a dead row or SINTER or SDIFF has a dead first key |
| Runs.StepSpaces | internal/store/store.go:40-71 | every command takes keyspaces that look alike to keyspaces that look alike |
| Runs.SweepsInvisible | internal/store/store.go:284-288 | two runs that make the same calls, with sweeps at any points of either, give the same views ever after and the same replies, except to a DEL, SINTER or SDIFF that sees a dead row in one of them |
| Runs.OnlyKeysCrashes | internal/store/store.go:396-476 | KEYS is the only command that can panic |
| Runs.DelCountsDeadRows | internal/store/store.go:159-174 | DEL replies what it would without dead rows if and only if it names none |
| Runs.InterIsIntersection | internal/store/sets.go:158-185 | SINTER is the intersection of the live sets if and only if no dead first row contributes a member |
| Runs.DiffIsDifference | internal/store/sets.go:188-213 | SDIFF is the difference of the live sets if and only if no dead first row contributes a member |
| Runs.UnionIsUnion | internal/store/sets.go:133-155 | SUNION is the union of the live sets, or a type error exactly when some live key is no set |
| Runs.DeadRowsSeen | internal/store/sets.go:158-213 | a dead set is counted by DEL and read by SINTER and SDIFF |
| Runs.OtherDatabases | internal/store/store.go:40-58 | a command on one database changes no entry of another |
| Runs.StepKeepsListsNonEmpty | internal/store/lists.go:44-65 | no command leaves a list key without elements |
| Runs.LeavesLookup | internal/store/store.go:53-58 | a command that does not name a key changes nothing seen of it |
| Runs.DoKeepsDeadline | internal/store/strings.go:40-55 | value updates keep the deadline; the key goes only when a list is emptied |
| Runs.DeadlineSurvives | internal/store/store.go:203-252 | with a deadline d, or none, through any run of value updates, commands on other keys and sweeps, PTTL is d-t, TTL its floor in seconds, and from d on the key is absent; without one both are -1 |
| Runs.RenameMoves | internal/store/store.go:312-381 | the new name has what the old one had, value and deadline, the old one is gone, every other key is unchanged |
| Runs.RenameKeepsValue | internal/store/store.go:334-379 | the value survives RENAME if and only if the names differ |
| Runs.RenamedAway | internal/store/store.go:334-379 | RENAME onto itself deletes the key |
| Runs.OneKeyRun | internal/store/store.go:40-71 | in every run, the replies on one key and what is seen of it are those of its own operations alone, whatever happens to other keys and whenever rows are swept |
| Runs.CounterRun | internal/store/strings.go:12-60 | any answered INCR / DECR / INCRBY / DECRBY operations in any run: up to the deadline of the key the replies are the start plus the signed deltas so far modulo 2^64 and the deadline is kept, from then on the count starts anew at 0; what is left is the decimal of the count |
| Runs.WrapDelta | internal/commands/strings.go:288-298 | DECRBY's 64-bit negation subtracts modulo 2^64, even for the least integer |
| Runs.CounterRefused | internal/store/strings.go:30-36 | incrementing what is no integer is refused and changes nothing |
| Runs.ListRun | internal/store/lists.go:27-315 | in any run, a list key is a plain sequence with a deadline: the replies to the list commands on it and the elements left are those of the sequence operations in turn, and the key exists exactly while the sequence is not empty |
| Runs.QueueRun | internal/store/lists.go:89-121 | in any run of RPUSH and LPOP, what was popped followed by what is left is what was there followed by what was pushed, up to the deadline of the key and again after it; in between the queue is kept whole or lost whole |
| Laws.ExpireSets | internal/store/store.go:203-215 | EXPIREAT gives a live key of any type the deadline and keeps its content; on no key it replies false and changes nothing that is seen |
| Laws.PersistClears | internal/store/store.go:256-269 | PERSIST clears the deadline of a live key and says whether there was one |
| Laws.SetWrites | internal/store/store.go:118-156 | SET writes text and deadline unless NX finds a key or XX finds none |
| Laws.DeadlineIsSet | internal/store/store.go:118-269 | after EXPIREAT, PERSIST or SET, through every run that does not touch the deadline again, PTTL and TTL count down to the deadline it has set, or say there is none |
| Laws.TypeTells | internal/store/store.go:272-281 | TYPE tells the type of a live key |
| Laws.TypesDoNotMix | internal/store/store.go:62-71 | an operation of one type on a live key of another is refused and changes nothing |
| Laws.TypesFit | internal/store/store.go:62-71 | and only then |
| Laws.StringsRead | internal/store/strings.go:63-126 | GET gives the text, STRLEN its length, APPEND lengthens it at its end and keeps the deadline |
| Laws.NoStringRead | internal/store/strings.go:63-126 | on no key GET is null, STRLEN 0, and APPEND starts from nothing |
| Laws.CountingCounts | internal/commands/strings.go:260-298 | INCR adds 1, DECR takes 1 away, INCRBY and DECRBY what they say, as far as int64 goes |
| Laws.RangeInside | internal/store/lists.go:168-184 | LRANGE gives the elements between two positions, counted from the head or from the tail |
| Laws.RangeOutside | internal/store/lists.go:168-184 | positions outside are brought inside; 0 to -1 is the whole list |
| Laws.PushesAndPops | internal/store/lists.go:68-140 | RPUSH appends, LPUSH puts each value at the front in turn, and RPOP and LPOP take off the end that they name |
| Laws.Positions | internal/store/lists.go:188-230 | LINDEX and LSET count from 0 at the head and from -1 at the tail, and refuse what is outside |
| Laws.Inserts | internal/store/lists.go:245-270 | LINSERT puts the value right before or right after the first pivot |
| Laws.Removes | internal/store/lists.go:273-315 | LREM works from the end that the sign of its count says, and replies how many elements have gone |
| Laws.HashLaws | internal/store/hashes.go:27-184 | HGET sees what HSET wrote and HDEL removed, all else as before; the replies count fields that came or went |
| Laws.SetLaws | internal/store/sets.go:25-114 | the same for sets |
| Laws.ZSetLaws | internal/store/zsets.go:75-111 | ZSCORE, ZCARD and ZREM |
| Laws.ZAddWrites | internal/store/zsets.go:36-72 | ZADD writes new members only under NX, existing ones only under XX, and replies the growth |
| Laws.ZSetReads | internal/store/zsets.go:114-251 | ZRANGE, ZRANK, ZRANGEBYSCORE and ZCOUNT read the ranking |
| Laws.Containers | internal/store/lists.go:61-63 | an emptied list loses its key, an emptied hash, set or sorted set keeps it; only adding commands make a key; the deadline stays |
| Laws.Deletes | internal/store/store.go:159-174 | DEL takes away exactly the named keys |
| Laws.ExistsCounts | internal/store/store.go:177-189 | EXISTS counts each naming of a live key and takes the dead rows it names away |
| Laws.Flushes | internal/store/store.go:291-309 | FLUSHDB empties its database and no other, FLUSHALL all; then DBSIZE is 0 |
| Laws.KeysGives | internal/store/store.go:396-416 | KEYS gives exactly the live names that match; `*` gives all, and DBSIZE says how many |
| Laws.FoldsClear | internal/store/sets.go:158-213 | SINTER and SDIFF take away the dead rows of all their keys but the first |
| Laws.NothingToRename | internal/store/store.go:313-323 | RENAME of an absent key says so |
| Laws.SweepClears | internal/store/store.go:284-288 | the sweep takes away exactly the dead rows |
| Laws.LookingUpClears | internal/store/store.go:53-58 | looking a dead key up takes its row away, so that DEL does not count it any more |
| Database.ByIndexOfIndexed | internal/store/lists.go:27-41 | reading list rows by index gives back the sequence they were written from |
| Database.EntryOfRecOf | internal/db/db.go:43-96 | the rows of a key determine its value and deadline |
| Database.InvMeansStrings | internal/db/db.go:52-58 | under the table invariant a key has a `strings` row exactly when its type is string |
| Database.InvMeansLists | internal/db/db.go:60-67 | list rows are numbered 0..n-1, with n > 0 exactly for list keys |
| Database.InvMeansOthers | internal/db/db.go:69-94 | hash, set and sorted-set rows belong to keys of that type |
| Database.Rewritten | internal/db/db.go:43-96 | rewriting the rows of one key to those of an entry keeps the invariant and changes the keyspace at that key only |
| Database.DeletedSpace | internal/db/db.go:43-96 | deleting `keys` rows with cascade keeps the invariant and removes exactly those keys |
| StoreCore.Store.KeyType | internal/store/store.go:40-49 | the type of the live key, or none |
| StoreCore.Store.DeleteExpired | internal/store/store.go:53-58 | the key's rows go exactly when its deadline has passed; nothing else changes |
| StoreCore.Store.Prepare | internal/store/store.go:62-71 | after lazy expiry, refusal exactly when the live key has another type |
| StoreCore.Store.Ensure | internal/store/hashes.go:13-24 | the typed key row exists afterwards, its deadline kept, or the type clash is reported |
| StoreStrings.Get | internal/store/store.go:92-106 | the tables afterwards and the reply are those of GET on the keyspace |
| StoreStrings.Set | internal/store/store.go:118-156 | likewise for SET with NX, XX and an expiry |
| StoreStrings.IncrBy | internal/store/strings.go:12-60 | likewise for INCRBY, with the rollback on a non-integer |
| StoreStrings.Append | internal/store/strings.go:63-106 | likewise for APPEND |
| StoreStrings.StrLen | internal/store/strings.go:109-126 | likewise for STRLEN |
| StoreLists.LAll | internal/store/lists.go:27-41 | the rows in index order are the stored sequence |
| StoreLists.LRewrite | internal/store/lists.go:44-65 | the rows afterwards are exactly the values at 0..n-1, or no key at all for none |
| StoreLists.LPush | internal/store/lists.go:68-86 | LPUSH on the tables is prepending the values last first |
| StoreLists.RPush | internal/store/lists.go:89-102 | RPUSH is appending |
| StoreLists.LPop | internal/store/lists.go:105-121 | LPOP takes the first element, and the key with the last one |
| StoreLists.RPop | internal/store/lists.go:124-140 | RPOP takes the last element |
| StoreLists.LLen | internal/store/lists.go:143-154 | LLEN is the length, 0 for no key |
| StoreLists.LRange | internal/store/lists.go:157-185 | LRANGE is the normalised slice for all int64 bounds |
| StoreLists.LIndex | internal/store/lists.go:188-207 | LINDEX is the normalised element, if any |
| StoreLists.LSet | internal/store/lists.go:210-230 | LSET replaces one element or reports the range |
| StoreLists.FindPivot | internal/store/lists.go:245-254 | the search loop gives the first position of the pivot, or -1 when absent |
| StoreLists.LInsert | internal/store/lists.go:233-270 | LINSERT places the value beside the first pivot, or replies -1 |
| StoreLists.LRem | internal/store/lists.go:273-315 | LREM on the tables is the specified removal, with its count |
| StoreHashes.HSet | internal/store/hashes.go:27-54 | HSET merges the pairs in any iteration order; its reply is the growth |
| StoreHashes.HDel | internal/store/hashes.go:75-93 | HDEL removes the named fields, named twice or not; its reply is the shrinkage; an emptied key stays |
| StoreHashes.ReadFields | internal/store/hashes.go:102-124 | HGET, HGETALL and HLEN answer from the live fields |
| StoreSets.SAdd | internal/store/sets.go:25-41 | SADD is set union; its reply is the growth even with repeated members |
| StoreSets.SRem | internal/store/sets.go:44-62 | SREM is set difference; its reply is the shrinkage |
| StoreSets.ReadMembers | internal/store/sets.go:65-114 | SMEMBERS, SISMEMBER and SCARD answer from the live members |
| StoreZSets.ZAdd | internal/store/zsets.go:36-72 | ZADD merges the admitted pairs in any iteration order under NX and XX; its reply is the growth |
| StoreZSets.ZRem | internal/store/zsets.go:75-93 | ZREM removes the named members; its reply is the shrinkage |
| StoreZSets.ReadScores | internal/store/zsets.go:96-251 | ZSCORE, ZRANK, ZRANGE, ZRANGEBYSCORE, ZCARD and ZCOUNT answer from the ranking of the live members |
| StoreKeys.ExpireAt | internal/store/store.go:203-215 | sets the deadline of a live key, and says whether there was one |
| StoreKeys.Ttl | internal/store/store.go:228-252 | -2 for no key, -1 for no deadline, else the time left |
| StoreKeys.Persist | internal/store/store.go:256-269 | clears the deadline of a live key that has one |
| StoreKeys.Type | internal/store/store.go:272-281 | the type of a live key |
| StoreKeys.Del | internal/store/store.go:159-174 | deletes the named keys with their rows and counts the rows of `keys` that went |
| StoreKeys.Exists | internal/store/store.go:177-189 | counts live keys as often as they are named |
| StoreKeys.Rename | internal/store/store.go:312-381 | the row moves of all five types are the RENAME of the keyspace |
| StoreKeys.Keys | internal/store/store.go:396-416 | KEYS gives exactly the live names that match, or ends the program exactly when matching one of them does |
| StoreKeys.DBSize | internal/store/store.go:291-297 | counts the live keys of the database |
| StoreKeys.FlushDB | internal/store/store.go:300-303 | empties one database and no other |
| StoreKeys.FlushAll | internal/store/store.go:306-309 | empties all databases |
| StoreKeys.SweepExpired | internal/store/store.go:284-288 | removes exactly the dead keys, with their rows |
| StoreKeys.SUnion | internal/store/sets.go:133-155 | the loop with lazy expiry and type checks is SUNION of the keyspace |
| StoreKeys.SInter | internal/store/sets.go:158-185 | the fold that deletes from the first set is SINTER of the keyspace |
| StoreKeys.SDiff | internal/store/sets.go:188-213 | the fold that deletes from the first set is SDIFF of the keyspace |
| StoreRuns.Execute | internal/store/store.go:74-156 | each command on the tables is its step on the keyspace and keeps the table invariant |
| StoreRuns.RunEvents | internal/store/store.go:284-309 | every run of commands and sweeps on the tables gives the replies and the keyspace of the abstract run, keeps the invariant, and stops where KEYS panics |
| StringCommands.CmdMSet | internal/commands/strings.go:313-323 | the loop of SET calls on the tables is the stated series of writes, each at its own time |
| StringCommands.PairsOfArgs | internal/commands/strings.go:317-318 | the arguments of MSET are read as key, value, key, value |
| StringCommands.MSetExactly | internal/commands/strings.go:313-323 | MSET writes every pair if and only if no key is alive with another type at its turn; otherwise exactly the pairs before the first such key stay written |
| StringCommands.HalfWritten | internal/commands/strings.go:313-323 | with a set under the second key, the first pair stays written |
| StringCommands.CmdMGet | internal/commands/strings.go:300-311 | each element is the live string under its key at its time, else null; nothing visible changes |
| StringCommands.MSetThenMGet | internal/commands/strings.go:300-323 | after a successful MSET, MGET gives the last value written under each key and is unchanged elsewhere |
| Resp.RoundTrip | internal/resp/resp.go:73-114 | reading the encoding of a well-formed value tree followed by anything gives that value and leaves exactly the rest, whatever the limits it fits |
| Resp.TypeBytes | internal/resp/resp.go:14-20 | each kind of value starts with its type byte |
| Resp.WireExamples | internal/resp/resp.go:73-114 | +OK, -ERR no, :12, $5 hello, the null bulk string and the null array on the wire |
| Resp.WireArrays | internal/resp/resp.go:73-114 | the same for arrays |
| Resp.RoundTripAll | internal/resp/resp.go:217-239 | the same for a sequence of values |
| Resp.RoundTripExactly | internal/resp/resp.go:76-85 | the round trip holds if and only if no simple or error string at any depth contains a newline, no part exceeds the largest block and the arrays do not nest too deep for the stack |
| Resp.NewlineSpoils | internal/resp/resp.go:76-78 | a simple string with a newline is not read back |
| Resp.DecodeSettled | internal/resp/resp.go:136-239 | a finished reading, a protocol error and a panic do not change when more bytes arrive |
| Resp.PrefixFree | internal/resp/resp.go:136-239 | every strict prefix of a well-formed encoding makes the reader run out of input |
| Resp.DecodedWellFormed | internal/resp/resp.go:136-254 | everything the reader returns, inline commands included, is well formed for a reader that nests one deeper |
| Resp.HeaderPanics | internal/resp/resp.go:199-237 | a bulk string header ends the program exactly when its length plus 2 exceeds the largest block (64-bit overflow included), an array header exactly when its elements exceed it, or cannot be read for want of stack, or reading one of them ends the program |
| Resp.OversizedPanics | internal/resp/resp.go:183-254 | a value that starts with an oversized header, line or inline command, or an array with elements at the bottom of the stack, ends the program |
| Resp.StreamPanics | internal/resp/resp.go:136-239 | after any complete values, such a value makes the stream end in a panic, and so it does inside an array that waits for more elements |
| Resp.NestedPanics | internal/resp/resp.go:171-236 | k headers `*1` one inside the other end the program if and only if k exceeds the room of the stack |
| Resp.PanicsExactly | internal/resp/resp.go:136-254 | reading a value ends the program if and only if one of the values that the reader begins, itself or an element at any depth, is oversized or too deep |
| Resp.StreamPanicsExactly | internal/resp/resp.go:132-254 | the same for a whole stream |
| Resp.ReadValuesRoundTrip | internal/resp/resp.go:136-254 | and so re-encodes to bytes that such a reader reads back as the same value |
| Resp.InlineNeedsRoom | internal/resp/resp.go:174-179 | why one deeper: an inline command is read where its array would find no room |
| Resp.WordsOfLine | internal/resp/resp.go:257-276 | splitting words joined by blanks gives the words |
| Resp.BlanksSkipped | internal/resp/resp.go:260-265 | spaces and tabs are skipped alike |
| Resp.BlanksSeparate | internal/resp/resp.go:260-265 | and end a word alike |
| Resp.InlineMeansArray | internal/resp/resp.go:243-254 | an inline command is read as the array of bulk strings of its words |
| Resp.Pipeline | internal/resp/resp.go:132-134 | pipelined encodings, the last cut anywhere, are read as the complete ones in order |
| Resp.BadNumbers | internal/resp/resp.go:157-228 | a length or integer that is no number is a protocol error |
| Resp.NumbersRead | internal/resp/resp.go:157-228 | any text of a number is read as it; a negative length is a null; a bulk string is so many bytes and a line end that must be there |
| Resp.LineEnds | internal/resp/resp.go:183-192 | a line without a carriage return before its newline is a protocol error, without a newline it is unfinished |
| RespStream.Writer.WriteValue | internal/resp/resp.go:73-114 | the writer appends exactly the encoding |
| RespStream.Reader.TakeLine | internal/resp/resp.go:183-192 | the line loop consumes one line with its end, or fails as specified |
| RespStream.Reader.ReadNested | internal/resp/resp.go:136-181 | the cursor-consuming reader gives the decoded value and leaves the specified rest, or fails or ends the program as specified, with the room that the stack has left |
| RespStream.Reader.ReadValue | internal/resp/resp.go:132-134 | the same with the whole stack |
| RespStream.Reader.ReadBulkString | internal/resp/resp.go:194-215 | likewise for bulk strings, with the panic of make on a length that overflows or is too large |
| RespStream.Reader.ReadArray | internal/resp/resp.go:217-239 | likewise for arrays filled element by element, with the panic of make on too many elements and the overflow of the stack |
| RespStream.SplitInline | internal/resp/resp.go:257-276 | the start-index scan gives the maximal runs without blanks |
| Letters.UpperStr | internal/commands/multi.go:78-86 | the in-place edit upper-cases exactly the ASCII letters |
| Letters.LowerStr | internal/commands/multi.go:88-96 | the in-place edit lower-cases exactly the ASCII letters |
| Letters.LetterTable | internal/commands/multi.go:78-96 | the letters and their capitals, and nothing else, are changed |
| Letters.UpperIsAscii | internal/commands/multi.go:78-86 | a name whose upper case is registered (hence ASCII) was ASCII itself, so both case mappings agree on it |
| Session.RegistryIsValid | internal/commands/multi.go:10-14 | registering MULTI, EXEC, DISCARD, SELECT and QUIT as the program does, beside any plain handlers under ASCII names, meets what the results below ask of the registry |
| Session.StepDoes | internal/commands/multi.go:51-76 | what each class of command does to the connection, classified by mode and text alone |
| Session.DispatchServes | internal/commands/registry.go:32-48 | outside a transaction a command is served as on a machine without transactions |
| Session.QueueServes | internal/commands/multi.go:42-46 | EXEC serves its queue in order and never begins, queues or ends a transaction on the way |
| Session.StepKeepsSane | internal/commands/multi.go:51-76 | database index in 0..15, queue empty outside MULTI, every queued command registered, long enough and none of MULTI, EXEC, DISCARD, QUIT |
| Session.RunKeepsSane | internal/commands/multi.go:16-76 | the same over every trace |
| Session.MultiElimination | internal/commands/multi.go:16-76 | for every trace, the world, the database and all replies are those of the flattened trace: executed blocks replaced by their commands at EXEC, discarded and unfinished blocks gone |
| Session.ExecResult | internal/commands/multi.go:34-47 | result i of EXEC is the reply from the state that queued commands 0 to i-1 leave |
| Session.SelectSelects | internal/commands/strings.go:251-258 | SELECT with an index text of 0 to 15 selects that database and replies OK; every other text is refused |
| Session.IndexFormatted | internal/commands/strings.go:252 | each of 0 to 15 in decimal is such a text |
| Session.SelectedIsUsed | internal/commands/strings.go:46-55 | the next plain command works on the selected database |
| Session.TraceSelects | internal/commands/multi.go:16-76 | over every trace the selected database is that of the last SELECT accepted in the flattened trace |
| Session.PlainServed | internal/commands/registry.go:32-48 | a plain command runs its handler on world and database when its arity fits, and is refused unchanged otherwise |
| Session.BlockReplies | internal/commands/multi.go:16-76 | MULTI, EXEC and DISCARD outside and inside a block, and the queueing, with their replies |
| Session.BlockRefuses | internal/commands/multi.go:64-73 | inside a block an unknown or too short command is refused by name and not queued |
| Session.NothingSent | internal/commands/registry.go:33-35 | a command without a name is refused |
| Session.UnknownRefused | internal/commands/registry.go:36-39 | an unknown command is refused by name |
| ClientConns.ClientConn.CmdMulti | internal/commands/multi.go:16-23 | opens a block, or refuses nesting |
| ClientConns.ClientConn.CmdDiscard | internal/commands/multi.go:25-32 | drops the block, or refuses outside one |
| ClientConns.ClientConn.CmdExec | internal/commands/multi.go:34-47 | the result-filling loop is the run of the queue |
| ClientConns.ClientConn.CmdSelect | internal/commands/strings.go:251-258 | selects 0..15 and refuses everything else |
| ClientConns.ClientConn.Dispatch | internal/commands/registry.go:32-48 | lookup, arity and handler as specified |
| ClientConns.ClientConn.QueueOrDispatch | internal/commands/multi.go:51-76 | one client command as specified |
| Channels.ActCounts | internal/pubsub/broker.go:27-53 | one operation changes each (channel, subscriber) multiplicity as it should and leaves no empty channel |
| Channels.TraceCounts | internal/pubsub/broker.go:27-53 | over any trace each multiplicity follows the trace |
| Channels.MovesCount | internal/pubsub/broker.go:27-66 | the same while publishes are under way: they leave the subscriptions alone |
| Channels.UnsubscribeAllLeaves | internal/pubsub/broker.go:39-47 | unsubscribing from everything leaves nothing if and only if no channel was held twice |
| Channels.OneLeft | internal/pubsub/broker.go:39-47 | of two subscriptions to one channel one is left |
| Channels.OrderOfService | internal/pubsub/broker.go:27-53 | a new subscriber stands last; the one that leaves is the first of its kind, the others keep their places |
| Channels.TotalRemove | internal/pubsub/broker.go:69-79 | the subscription count does not depend on the iteration order of the map |
| Channels.TotalFollows | internal/pubsub/broker.go:31-52 | the replied count grows by one with a subscription and shrinks by one with an unsubscription that finds one |
| Channels.PublishDeliversSnapshot | internal/pubsub/broker.go:56-66 | whatever is interleaved, a finished publish has delivered its message to exactly the subscribers of the moment of its copy, in order and multiplicity |
| Broker.RemoveOne | internal/pubsub/broker.go:81-92 | compaction over the array being read is removal of the first occurrence; at its old length the array shows the rest moved up and the last element twice |
| Broker.Broker.Subscribe | internal/pubsub/broker.go:27-32 | appends, in place or grown, and counts the subscriber's subscriptions |
| Broker.Broker.Unsubscribe | internal/pubsub/broker.go:36-53 | removes one occurrence on the channel, or one on each |
| Broker.Broker.CountForSub | internal/pubsub/broker.go:69-79 | counts every occurrence on every channel |
| Broker.Broker.Snapshot | internal/pubsub/broker.go:57-60 | the copy holds the subscribers of the channel in an array that is new and none of the broker's |
| Broker.Broker.Publish | internal/pubsub/broker.go:56-66 | with nothing in between, delivers to the copy, in order, and counts |
| Broker.RunMoves | internal/pubsub/broker.go:27-66 | any interleaving of Subscribe, Unsubscribe, copying and single deliveries on the broker object, its arrays compacted and appended to in place, is the interleaving on values |
| Broker.WithoutCopy | internal/pubsub/broker.go:57-66 | a publish that kept the shared array over an unsubscription would deliver to the compacted array |
| Broker.WithoutCopyExactly | internal/pubsub/broker.go:57-92 | that would be the snapshot if and only if nobody but the removed subscriber stands from its first position on |
| Broker.ServedTwice | internal/pubsub/broker.go:57-92 | of two subscribers, the first leaving, the second would be served twice |
| Server.GateHolds | internal/server/server.go:114-151 | with a password, no run without a successful AUTH changes the store, the session or the broker or writes to another client; the connection stays locked |
| Server.GateHoldsToTheEnd | internal/server/server.go:124-145 | the same through the clean-up at the end |
| Server.GateOpens | internal/server/server.go:141-151 | after the first good AUTH the rest is handled as on a connection that needed none |
| Server.AuthLasts | internal/server/server.go:214-227 | an authenticated connection stays so over every run |
| Server.AuthedExactly | internal/server/server.go:214-227 | a connection ends up authenticated if and only if a good AUTH came with no QUIT before it |
| Server.RunGood | internal/server/server.go:111-212 | every run keeps the session invariant and every other client's subscriptions |
| Server.HangUpLeaves | internal/server/server.go:207-210 | a connection that hangs up is gone from the broker if and only if it held no channel twice |
| Server.SessionOfConversation | internal/server/server.go:147-210 | an authenticated connection is its session run on exactly the forwarded commands, beside the server's own pub/sub and AUTH work: the store, the subscriptions and everything written, each reply of the session at the place of its command, are those of the two |
| Server.CommandForms | internal/server/server.go:229-235 | a value alone is a command of one argument; an empty or null array is passed over |
| Server.LockedOut | internal/server/server.go:141-145 | before authentication every command but AUTH and QUIT gets NOAUTH |
| Server.AuthAnswers | internal/server/server.go:214-227 | the replies to AUTH, and whom it lets in |
| Server.PublishSends | internal/server/server.go:102-109 | PUBLISH sends `message`, channel and message to every subscriber and replies how many they are |
| Server.SubscribeTells | internal/server/server.go:155-189 | what SUBSCRIBE and UNSUBSCRIBE of one channel change and tell |
| Server.UnsubscribeAllTells | internal/server/server.go:168-176 | the same for UNSUBSCRIBE of all |
| Server.SessionAnswers | internal/server/server.go:200-210 | everything else goes to the session and its reply to the client; QUIT hangs up |
| Server.PipelinedConversation | internal/server/server.go:123-137 | a client cut off in the middle of a command has the effect of its complete commands |
| Server.StopsExactly | internal/server/server.go:123-137 | the reader ends the program if and only if one of the values it begins is oversized or too deep and none of the values before is a QUIT |
| Server.OversizedStopsServer | internal/server/server.go:123-137 | a value too large for the reader after complete values ends the program, password or not, if and only if none of these is a QUIT |
| Server.OneLineStopsServer | internal/resp/resp.go:207 | one bulk string header with the largest int64, from a client that has said nothing else, ends the program |
| Server.NestedHeadersStopServer | internal/resp/resp.go:171-236 | array headers of one element, nested deeper than the stack has room for, end the program, and fewer do not |
| Connections.Connection.HandleAuth | internal/server/server.go:214-227 | authenticates exactly on the right password or when none is set |
| Connections.Connection.HandleValue | internal/server/server.go:134-210 | one turn of the loop on the session object and the broker is the specified step |
| Connections.Connection.HandleConn | internal/server/server.go:111-212 | reading the whole byte stream has the effect of handling the decoded values, then leaving the broker, unless the reader ends the program: then the link stays as it was |
| Network.OwnSubscriptions | internal/server/server.go:153-191 | in any interleaving of the turns of several connections, how often a client is subscribed to a channel follows from its own commands; all sessions stay sane |
| Network.LockedIsUnseen | internal/server/server.go:141-151 | in any interleaving, without the turns of a client that does not give the password, the store, the broker, the other sessions and all that is written to the others are the same |
| Network.LogOnlyGrows | internal/server/server.go:123-210 | what a turn does and writes does not depend on what was written before |
| Placeholders.Itoa | internal/db/postgres.go:134-145 | the digit loop gives the shortest decimal text |
| Placeholders.DigitsInjective | internal/db/postgres.go:134-145 | distinct numbers have distinct texts |
| Placeholders.RewritePlaceholders | internal/db/postgres.go:87-117 | the scanner that looks ahead at doubled quotes gives what the quote-parity rewrite gives |
| Placeholders.RewriteAt | internal/db/postgres.go:87-117 | a character is kept unless it is a `?` after an even number of quotes; then it becomes `$k` with k-1 placeholders before it |
| Placeholders.RewriteIdempotent | internal/db/postgres.go:87-117 | rewriting again changes nothing |
| Placeholders.RewriteInvertible | internal/db/postgres.go:87-117 | a query without `$` outside literals can be read back from its rewriting |
| Placeholders.ScanIsMeant | internal/db/postgres.go:87-117 | for every query, PostgreSQL's scanner, with its literals, quoted names, dollar quotes, comments, identifiers, numbers and parameters, reads the k-th placeholder as parameter k and all else as it was if and only if the query is `Apart`: program and scanner agree on which `?` are placeholders, each stands where a parameter may begin with no digit or letter after it, and no parameter was there before |
| Placeholders.SimpleContexts | internal/db/postgres.go:95-107 | the scanner ends literals, quoted identifiers and line comments where they end, everything inside being text |
| Placeholders.BlockContexts | internal/db/postgres.go:87-117 | block comments nest |
| Placeholders.EscapeOpens | internal/db/postgres.go:98-103 | E'...' opens a literal |
| Placeholders.EscapeContexts | internal/db/postgres.go:98-103 | in it a backslash keeps a quote inside; a doubled quote stays inside, there and in '...' |
| Placeholders.DollarContexts | internal/db/postgres.go:87-117 | a dollar quote ends with its own tag |
| Placeholders.WordContexts | internal/db/postgres.go:87-117 | an identifier goes on over a `$` and digits; a parameter may begin right after a number |
| Placeholders.IdentifierLetters | internal/db/postgres.go:87-117 | the characters an identifier starts with |
| Placeholders.TakenOn | internal/db/postgres.go:108-111 | a query that starts with a placeholder and a digit or a letter right after it loses its meaning |
| Placeholders.TakenIn | internal/db/postgres.go:108-111 | so does one that starts with an identifier and a placeholder right after it |
| Placeholders.TakenBefore | internal/db/postgres.go:108-114 | so does one that starts with `$?` or with a parameter of its own |
| Placeholders.LimitTaken | internal/db/postgres.go:108-111 | `LIMIT?` loses its meaning, `a=?` keeps it |
| Placeholders.DollarTaken | internal/db/postgres.go:108-114 | `$1?` is rewritten to `$1$1`, which names one parameter twice |

## Left out

- SQL drivers, pooling, migration and isolation: a statement is an atomic change of the tables, a transaction commits or rolls back whole.
- Concurrency between connections on the store: EXEC, MSET, GETSET and the list read-then-rewrite are not enclosed in one transaction by the code, so nothing is claimed across connections. Interleaving is modelled for the broker.
- Database errors part-way through a command; only the rollbacks on domain errors are modelled.
- The text of numbers in sorted sets (ParseFloat, formatFloat, parseScore) and ZINCRBY's rounding: scores come as values.
- Member order is that of bytes; a PostgreSQL collation may order members of equal score otherwise.
- HKEYS, HVALS, HMGET, HEXISTS, GETSET, SETNX and the argument conversion of the thin handlers, with SET's option loop: easy members over the modelled operations.
- INFO, COMMAND, RANDOMKEY, configuration, TCP, TLS, logging and flushing.
- `time.Duration` overflow in EXPIRE and EX: deadlines are integers.
- The order of replies that come from Go maps or unordered queries (KEYS, SMEMBERS, HGETALL, SUNION, SINTER, SDIFF): they are sets here.
- Resp.HeaderPanics: one limit stands for all refused allocations, and the 64 bytes of a value are those of a 64-bit machine; memory that runs out below the limit also ends the program, but when it does depends on the machine.
- Resp.NestedPanics: the room of the stack is counted in nested arrays, whatever their frames take; the same number for `Glob.GlobMatch` is counted in nested calls.
- RespStream.Writer.WriteValue: the stack of the writer is not modelled; the replies it writes nest no deeper than the result of EXEC.
- Resp.RoundTrip: the zero `Value{}`, which has no type byte, is not modelled.
- Session.MultiElimination: the other handlers are any functions of the world, the database index and the arguments; a handler that panics, as KEYS can, or does not return is not modelled there; `Runs.RunAll` and `StoreRuns.RunEvents` stop at the panic.
- Connections.Connection.HandleConn: other connections change nothing between two turns of this one; `Network.AfterAll` interleaves turns, as values. Replies are logged in order instead of written to a socket.
- Placeholders.ScanIsMeant: the scanner is that of PostgreSQL 15 and later with `standard_conforming_strings` on; an E'' literal that is continued after a line break is not modelled, nor that letters right after a number are an error in the query itself.
