# Unique priority FIFO queue — a Dafny model

`UniquePriorityFifoQueue` keeps a queue in one Redis sorted set and one
sequence counter (`_<name>_seq`). A member appears at most once. Members come
out by priority class (0 is the highest, 9 the lowest and the default). Within
a class they come out first in, first out. The class docstring
(`upf_queue.py:32-41`) promises that re-inserting a member at a higher
priority overwrites its priority, and that re-inserting it at a lower one does
nothing. The model's `UpfQueue.Upsert` keeps that promise. It also keeps the
member's sequence number, and so its place among its new class. The insert
script as written keeps the promise for members of priority 1 to 9 but not
for priority 0 (see Findings).

The model replaces Redis by an immutable value. `UpfQueue.Queue` maps each
member to an `Entry(priority, seqNo)` and carries the counter. The sorted-set
score of an entry is the number `priority * 10^15 + seqNo`. Each operation is
a transition from one queue value to the next. In the source, every script call
and the `pop` transaction is atomic, but a multi-chunk `insert` is not (see
Left out).

The files, one module each:

- `decimal.dfy` (`Decimal`): digit strings. It covers `%015d` padding, parsing a digit string the way ZADD reads a score argument, and the shortest decimal form that ZSCORE replies with.
- `score_codec.dfy` (`ScoreCodec`): the score string `priority..%015d(seq)`. It covers decoding the first character, promotion by rewriting that character, and the order of the numbers scores denote.
- `upf_queue.dfy` (`UpfQueue`): the queue state and the insert script's loop as `Upsert` and `RunScript`. It also holds `insert`, `delete`, `count` and `__len__`.
- `chunking.dfy` (`Chunking`): the `chunks` generator.
- `pop.dfy` (`Extraction`): `pop` as a selection loop over the lowest scores, with its result stated as the sorted prefix of the queue.
- `lua_script.dfy` (`LuaInsertScript`): the insert script over the store's own representation, numeric scores plus counter. It has a corrected step, proved to implement `Upsert`. It also has the step as written, which re-reads scores through ZSCORE (see Findings).
- `scenarios.dfy` (`Scenarios`): the outcomes the repository's tests expect. They are derived from the model for arbitrary distinct members.

## Model

| member | source | states |
|---|---|---|
| Decimal.Pad | upf_queue.py:13 | `%015d` rendering yields exactly the requested number of characters, all digits |
| Decimal.Value | upf_queue.py:14 | the number a digit string denotes is below 10 to the power of its length |
| Decimal.Render | upf_queue.py:9 | the ZSCORE reply is a non-empty digit string that parses back to the score, has no leading zero, and is exactly `"0"` for the score 0 |
| Decimal.ValuePad | upf_queue.py:13-14 | parsing a zero-padded rendering gives the number back |
| Decimal.PadValue | upf_queue.py:13-14 | re-padding a parsed digit string to its own width gives the string back |
| Decimal.ValueConcat | upf_queue.py:13-14 | the number denoted by a concatenation is the left part shifted by the width of the right part, plus the right part |
| Decimal.RenderPad | upf_queue.py:9 | a score with exactly `width` significant digits is replied in the same form as its `width`-digit padding |
| ScoreCodec.Encode | upf_queue.py:13 | a score string has 16 characters, all digits |
| ScoreCodec.PriorityOf | upf_queue.py:17 | the priority read from a score string is the value of its first character, the digit it is written with |
| ScoreCodec.PromoteLowers | upf_queue.py:18-20 | rewriting the first digit to a smaller one lowers the number the string denotes, so a rewrite never moves a member back |
| ScoreCodec.Promote | upf_queue.py:19 | promotion keeps the length and everything after the first character, and the first character then reads as the new priority |
| ScoreCodec.DecodeEncode | upf_queue.py:13-17 | the first character of an encoded score decodes to its priority and the rest to its sequence number |
| ScoreCodec.EncodeValue | upf_queue.py:13-14 | the number Redis reads from an encoded score is `priority * 10^15 + seq` |
| ScoreCodec.PromoteEncode | upf_queue.py:19 | promoting an encoded score gives the encoding of the new priority with the same sequence number |
| ScoreCodec.ScoreOrder | upf_queue.py:13-14 | numeric scores order pairs by priority, then by sequence number, and are equal only for equal pairs |
| ScoreCodec.EncodeOrder | upf_queue.py:13-14 | the encoding is injective, and the numbers it denotes preserve the priority-then-sequence order |
| ScoreCodec.ScoreFits | upf_queue.py:13 | every score has at most 16 digits |
| ScoreCodec.ScoreInClass | upf_queue.py:67-74 | every score of priority p lies in the range `[p*10^15, (p+1)*10^15)` that `count` uses |
| UpfQueue.Upsert | upf_queue.py:9-21 | one loop iteration. An absent member is added with counter+1, and the counter advances. A present member keeps its sequence number and ends at the smaller of the two priorities. Every other member is untouched |
| UpfQueue.UpsertNoDemotion | upf_queue.py:15-21 | re-inserting at the same or a lower priority changes nothing, counter included |
| UpfQueue.UpsertIdempotent | upf_queue.py:9-21 | repeating an upsert has no further effect |
| UpfQueue.UpsertPreservesValid | upf_queue.py:9-21 | while the counter fits in 15 digits, every member holds a distinct, already-issued sequence number |
| UpfQueue.RunScript | upf_queue.py:6-23 | after one script call the members are the old ones plus those named |
| UpfQueue.ScriptCounter | upf_queue.py:9-12 | the counter advances once per distinct member the call adds, and not for members already queued |
| UpfQueue.ScriptUntouched | upf_queue.py:6-23 | a member the call does not name keeps its entry |
| UpfQueue.ScriptKeepsSeq | upf_queue.py:15-21 | a member already present keeps its sequence number and is never demoted |
| UpfQueue.ScriptFreshSeq | upf_queue.py:10-14 | a member added by the call gets a sequence number issued during the call |
| UpfQueue.ScriptMeetsRequest | upf_queue.py:6-23 | every named member ends present, at a priority at least as high as requested for it |
| UpfQueue.ScriptFifo | upf_queue.py:6-14 | among members the call adds, the one named first gets the smaller sequence number |
| UpfQueue.ScriptGrowth | upf_queue.py:6-14 | the size grows by the number of distinct named members that were absent. That number equals the counter's advance |
| UpfQueue.ScriptPreservesValid | upf_queue.py:6-23 | a script call keeps sequence numbers distinct and issued |
| UpfQueue.ScriptAppend | upf_queue.py:6-23 | running the script on two lists in turn is running it on their concatenation |
| Chunking.Chunks | upf_queue.py:102-112 | size 0 yields nothing. Otherwise the chunks are non-empty, at most `size` long, all but the last exactly `size` long, and concatenate to the input |
| UpfQueue.RunChunksFlatten | upf_queue.py:79-83 | `RunChunks`, one script call per chunk as the `insert` loop makes them, ends in the same state as one call over the concatenated chunks |
| UpfQueue.Insert | upf_queue.py:79-83 | with a positive chunk size, `insert` equals one left-to-right script pass over all keys at the given priority. With chunk size 0 it changes nothing |
| UpfQueue.InsertPreservesValid | upf_queue.py:79-83 | `insert` keeps the queue invariant while the counter stays below 10^15 |
| UpfQueue.Delete | upf_queue.py:85-87 | removes exactly the listed members and keeps the counter. It returns nothing for an empty list, otherwise the number of members actually removed |
| UpfQueue.DeleteAbsent | upf_queue.py:85-87 | deleting an empty list or only absent members leaves the queue as it was |
| UpfQueue.DeletePreservesValid | upf_queue.py:85-87 | deleting keeps the queue invariant |
| UpfQueue.Size | upf_queue.py:60-61 | `len` is ZCARD, the number of members: zero exactly when no member is queued |
| UpfQueue.CountRange | upf_queue.py:67-76 | the score range has no lower bound exactly for priority 0 and no upper bound exactly for 9, and there is none, the `ValueError` case, exactly above 9 |
| UpfQueue.RangeSelectsClass | upf_queue.py:67-74 | the range scanned for a priority 0..9 holds a queue entry's score exactly when the entry has that priority |
| UpfQueue.Count | upf_queue.py:63-77 | without a priority the answer is the size. The answer is an error exactly when the priority exceeds 9 |
| UpfQueue.CountIsClassSize | upf_queue.py:63-77 | for priority 0..9 the score-range count equals the number of members of that priority |
| UpfQueue.CountNegative | upf_queue.py:70-72 | a negative priority falls in the `priority < 9` branch and counts nothing |
| UpfQueue.ClassTotalCounts | upf_queue.py:63-77 | summing class sizes up to k counts the members of priority below k |
| UpfQueue.ClassesAddUp | upf_queue.py:60-77 | the ten priority classes together hold every member |
| UpfQueue.CountsAddUp | upf_queue.py:60-77 | the ten per-priority counts add up to `count()`, that is to `len` |
| Extraction.LowestScored | upf_queue.py:94 | rank 0 of the sorted set: a member whose score is not above any other's |
| Extraction.ScoreIsRetrievalOrder | upf_queue.py:94-95 | in a valid queue, comparing scores is comparing by priority then by insertion |
| Extraction.BelowTotal | upf_queue.py:94-95 | in a valid queue, of two different members exactly one comes first |
| Extraction.SelectLowest | upf_queue.py:94-95 | the selection loop ends with a sorted selection of `count` members, or of all of them |
| Extraction.Pop | upf_queue.py:89-96 | for `0 < count <= 25000`, returns `min(count, size)` members in ascending score order, each before every member left. Removes exactly those and keeps the counter. The size drops by the number returned |
| Extraction.PopPreservesValid | upf_queue.py:95 | removing popped members keeps the queue invariant |
| Extraction.SortedPrefixUnique | upf_queue.py:94 | the pop result is determined by the queue: two sorted prefixes of the same length are equal |
| Extraction.FirstOfRest | upf_queue.py:94 | after its first `i` members, a pop result continues with the member that comes first among those not yet taken |
| Extraction.NotInPrefix | upf_queue.py:94 | a pop result never returns the same member twice |
| LuaInsertScript.AddNew | upf_queue.py:12-14 | the absent branch stores the numeric score `priority * 10^15 + (counter+1)` and advances the counter by one. Scores stay within 16 digits |
| LuaInsertScript.Rescore | upf_queue.py:15-21 | the present branch changes only that member's score and keeps the counter. Given the score as read back, it never raises it. With a 16-digit reading, scores stay within 16 digits |
| LuaInsertScript.Padded | upf_queue.py:13 | reading a stored score at 16 digits gives a digit string that parses back to it |
| LuaInsertScript.Step | upf_queue.py:9-22 | the corrected loop iteration leaves the old members plus the named one, advances the counter by at most one and keeps scores within 16 digits |
| LuaInsertScript.StepAsWritten | upf_queue.py:9-22 | the loop iteration as written, reading the ZSCORE reply. An absent member is added with score `p * 10^15 + (counter+1)` and the counter advances. A present member's score can only go down and the counter stays. Every other member keeps its score |
| LuaInsertScript.RunStore | upf_queue.py:6-23 | the corrected script over an argument list keeps scores within 16 digits. It ends with the old members plus the named ones, and the counter advances by at most one per argument |
| LuaInsertScript.PaddedScore | upf_queue.py:13-17 | a queue entry's stored score, re-read at 16 digits, is exactly the string the script wrote |
| LuaInsertScript.StepRefinesUpsert | upf_queue.py:9-22 | the corrected iteration on the stored form of a queue gives the stored form of `Upsert` |
| LuaInsertScript.ScriptRefines | upf_queue.py:6-23 | the corrected script over a whole argument list gives the stored form of `RunScript` |
| LuaInsertScript.AsWrittenAgreesAboveZero | upf_queue.py:9-19 | for members of priority 1..9 the script as written does what the corrected step does |
| LuaInsertScript.AsWrittenBreaksFifo | upf_queue.py:9-19 | with A and B queued at priority 0, re-inserting B at 0 changes nothing in the corrected step. The script as written moves B's score from 2 to 0, ahead of A |
| LuaInsertScript.AsWrittenCollides | upf_queue.py:9-19 | with A at priority 0, seq 2 and B at priority 0, seq 12, re-inserting B at 0 changes nothing in the corrected step. The script as written rewrites B's score to 2, equal to A's |
| Scenarios.PriorityScenario | test_upf_queue.py:105-110 | C at LOW, B at HIGH, D and A at LOW, E at HIGH leaves each with its own sequence number, and pop(10) yields B, E, C, D, A |
| Scenarios.DuplicatesRemainInPlace | test_upf_queue.py:39-42 | inserting B and C again changes nothing, counter included, and pop(4) yields A, B, C, D |
| Scenarios.FirstInsert | test_upf_queue.py:122-129 | the first insert into a fresh queue gives the member sequence number 1 |
| Scenarios.OneMemberCounts | test_upf_queue.py:124-125 | a queue of one member counts it in its own class and in no other |
| Scenarios.DuplicateWithOtherPriority | test_upf_queue.py:122-139 | after the first insert the member is counted in its own class only. After the second, in either order, it is counted in HIGH only |
| Scenarios.InsertConcat | upf_queue.py:79-83 | inserting a concatenation is inserting its two parts in turn |

## Left out

- Redis client plumbing: script registration, pipelines, MULTI/EXEC and the network calls are not modelled. Each script call and the `pop` transaction is one atomic transition on an in-memory value, which stands in for their atomicity against concurrent callers.
- Scores as IEEE doubles: Redis stores scores as doubles, which lose precision above 2^53. The model keeps the exact integer `priority * 10^15 + seq`.
- UpfQueue.ScriptPreservesValid: sequence-counter overflow past 10^15 is excluded by a precondition (`counter + |batch| < 10^15`). It is not modelled as the score corruption it would cause. The same precondition is on `InsertPreservesValid`, `ScriptRefines` and `Step`.
- UpfQueue.Upsert: models one loop iteration with the current score read back at its full 16-digit width. That is the behaviour the class docstring describes. The iteration as written, which reads the ZSCORE reply, is `LuaInsertScript.StepAsWritten`. It differs for priority-0 members (see Findings), and the rest of the model uses `Upsert`.
- UpfQueue.Insert: the source is atomic only per chunk: it makes one script call per chunk, so another client's insert, pop or delete can run between chunks, and a failure can leave a multi-chunk insert half-applied. The model runs the whole insert as one transition, with no intermediate state visible to others; `UpfQueue.RunChunks` gives the per-chunk states but nothing interleaves with them.
- UpfQueue.Insert: the priority is typed as 0..9. The source does not validate it, and other values produce scores outside the ten classes.
- Chunking.Chunks: a negative chunk size, which makes `itertools.islice` raise, is not representable, since the size is a natural number. The number of chunks is not stated.
- UpfQueue.Delete: takes a sequence. A generator argument is always truthy in the source, so an empty generator would reach ZREM with no members. That case is not modelled.
- Extraction.Pop: the count bound is a precondition, not an assertion failure. Generator laziness, which delays the assertion and the transaction until the first item is requested, is not modelled. UTF-8 decoding of the returned members is not modelled, since members are strings throughout.
- Extraction.SortedPrefix: Redis breaks score ties by member name. Valid queues have no ties, so the model does not order by name.
- UpfQueue.Count: the `ValueError('TODO')` branch is modelled as an error result. Non-integer priorities are not.
- `__init__` only stores the name and registers the script. It is represented by `UpfQueue.Empty`, the state of a queue name never used before.

## Findings

| source | as written | input that shows it | evidently intended | confidence | as-written member | corrected member |
|---|---|---|---|---|---|---|
| upf_queue.py:9-19 | The script reads the current priority as the first character of the ZSCORE reply. Redis replies with the shortest decimal form of the stored score, so for a priority-0 member the leading `0` is gone and the first character is the first digit of the sequence number. | A queued at 0 with seq 1 (score 1), B queued at 0 with seq 2 (score 2), then `insert(['B'], priority=0)`. The reply `"2"` reads as priority 2, `0 < 2`, and B is rewritten to score `"0"` = 0, ahead of A. With A at seq 2 and B at seq 12 the reply `"12"` reads as priority 1 and B is rewritten to `"02"` = 2, A's own score (`LuaInsertScript.AsWrittenCollides`). The two then tie and Redis orders them by member name. | A re-insert at the same priority changes nothing. The score should be read back at its full 16-digit width. | not executed; high — follows from Redis's score formatting | LuaInsertScript.AsWrittenBreaksFifo | LuaInsertScript.StepRefinesUpsert |
