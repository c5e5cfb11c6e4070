# plap, modelled and proved

plap is an LLM server. This project models the parts of it that carry state or algorithms of their own, in
Dafny, and proves what they promise. `dafny verify dfyconfig.toml` checks everything.

* **The response delta log** (`ResponseLogSpec`, `ResponseLogInvariants`, `ResponseLogReplay`,
  `ResponseLogEffects`, `ResponseLog`).
  Payloads, records, items, leases, conversations and tombstones are tables, each transaction one atomic step
  on them. `Database` is the schema at work: the triggers that count references, the stored functions, and the
  collectors, proved against steps on tables without counters. On those steps stand the invariants over runs,
  the replay as a fold, when a transaction succeeds and which rows it then leaves, and the soundness and
  completeness of garbage collection.
* **The tolerant JSON parser** (`JsonSyntax`, `JsonScan`, `JsonStrict`, `JsonTruncation`, `JsonRecovery`,
  `JsonPrint`). The texts of RFC 8259 are syntax trees with a text and a meaning, and so are their first so many
  characters. The parser is a class whose methods carry, as ghost parameters, the strict reading of the text ahead
  when there is one; its contracts say what it makes of that, also when the input ends early, while its termination
  holds for every text. Any answer of the schema is allowed for.
* **DSML** (`TextSearch`, `DsmlText`, `Dsml`, `DsmlRoundTrip`). A turn is written out and parsed again. The parser
  finds everything through stop strings, so the proofs are about where those can and cannot be found.
* **The response coordinator** (`ResponseEvents`, `StreamCoordinator`). Items in memory, rows in the store, and
  published events, where every awaited call may raise, and the driver that runs handlers against it. The calls
  that did not come through are counted, so that what fails has a reason, and without one the handlers decide.
* **The streaming pipeline** (`ChatStream`, `Router`, `Retry`). The state machine that settles the finish reason, the
  accumulator, the fallback router and the retrying client, over any behaviour of the providers.
* **Smaller pieces** (`Overlays`, `OverlayText`, `SchemaRefs`, `Budget`). The enumeration of overlay requests, the resolution of
  cyclic schemas, and the completion budget over exact reals.

Five results are conditions rather than plain promises, each with a lemma at an input that fails it. An integer
with more digits than the interpreter converts (4300 by default, `limit` here) is left as its text by the JSON
parser, so the round trip holds exactly for values whose integers fit (`LongIntegerIsLost`). A DSML parameter name
that contains `" string="true">` or `" string="false">` is cut off there, so a turn is recovered exactly when no
name does (`MarkIsLost`); quotes alone do no harm, and names of tools may contain anything but the DSML token. The
match between conversations and their live leases survives exactly the transactions that do not change a
conversation's lease behind its back, which the lease functions allow for any owner (`ReleaseBreaksHeads`). A key
that the end of the text cuts off is assigned null all the same, so of an object in a snapshot every member that was
complete is as it will be, unless the cut makes another key of the same name (`CutKeyOverwrites`). And the
accumulator builds a message after every delta, so a stream can be folded exactly when the first delta of every
call has both id and name and the model is known by the time of a finish reason (`LateId`, `LateModel`).

## Model

| member | source | states |
|---|---|---|
| `ResponseLogInvariants.NextConsistent` | migrations/versions/20260424_0002_responses_delta_log_schema.py:70-261 | every transaction that succeeds keeps all foreign keys, unique indexes, parent and base links, one live lease per owner, and payloads free of duplicates; a deletion by the collector does so while conversations and their leases match |
| `ResponseLogInvariants.NextHeadsLeased` | migrations/versions/20260424_0002_responses_delta_log_schema.py:482-547 | conversations and live conversation leases keep matching one to one exactly when the transaction is not a direct change of a lease that some head holds |
| `ResponseLogInvariants.ReleaseBreaksHeads` | migrations/versions/20260424_0004_responses_delta_log_functions.py:519-535 | releasing the lease of a conversation that is still there is a transaction that breaks the match |
| `ResponseLogInvariants.RunKeepsInvariants` | migrations/versions/20260424_0004_responses_delta_log_functions.py:247-564 | over whole runs of any transactions that spare the heads, both invariants hold at the end |
| `ResponseLogInvariants.HeadLeaseUnique` | migrations/versions/20260424_0002_responses_delta_log_schema.py:174-198 | conversations and the live leases on their heads determine each other |
| `ResponseLogReplay.ChainDescends` | migrations/versions/20260424_0002_responses_delta_log_schema.py:85-119 | prev_response_id is acyclic: creation stamps fall strictly along the ancestors of any response, all of them present and in its scope |
| `ResponseLogReplay.BaseInChain` | migrations/versions/20260424_0004_responses_delta_log_functions.py:288-304 | the replay base of a response is the response or one of its ancestors |
| `ResponseLogReplay.ReplayRefinesFold` | migrations/versions/20260424_0004_responses_delta_log_functions.py:388-457 | the recursive lineage query computes the fold: nothing for a base, otherwise the replay of the parent, followed by the inputs and then the outputs of the response in index order |
| `ResponseLogReplay.LineageIsChainPrefix` | migrations/versions/20260424_0004_responses_delta_log_functions.py:399-415 | the query visits a contiguous run of the ancestors, from the response to its base, where it ends |
| `ResponseLogReplay.CreatedReplay` | migrations/versions/20260424_0004_responses_delta_log_functions.py:279-343 | a new response starts over when it is a root or brings a compaction, and continues the replay of its parent otherwise |
| `ResponseLogEffects.CreatedReads` | migrations/versions/20260424_0004_responses_delta_log_functions.py:279-457 | a new response is read as what its parent is read as, nothing for a root or with a compaction among its outputs, then its inputs and then its outputs, in the order given |
| `ResponseLogEffects.RowsOrdered` | migrations/versions/20260424_0004_responses_delta_log_functions.py:430-456 | of one response every item is listed with its payload and nothing else, inputs before outputs, each by ascending index |
| `ResponseLogReplay.ByIndexSorts` | migrations/versions/20260424_0004_responses_delta_log_functions.py:452-456 | ordering by index lists every item row of a response once, ascending |
| `ResponseLogReplay.NextKeepsReplay` | migrations/versions/20260424_0003_responses_gc.py:70-271 | a transaction changes what a response replays only by writing items on its lineage or by deleting that response |
| `ResponseLogReplay.RunKeepsReplay` | migrations/versions/20260424_0003_responses_gc.py:70-271 | over whole runs, a response that is not deleted and whose lineage is not written replays the same |
| `ResponseLogReplay.ScheduledKeepsReplay` | migrations/versions/20260424_0003_responses_gc.py:149-271 | whatever the four scheduled procedures leave replays as before, in any interleaving |
| `ResponseLogReplay.UnreferencedUnblocked` | migrations/versions/20260424_0003_responses_gc.py:100-129 | once its dead leases are gone, an unreferenced response is the parent, base, leased response or head of nothing, so its deletion breaks no foreign key |
| `ResponseLogReplay.RemovedGarbage` | migrations/versions/20260424_0003_responses_gc.py:107-143 | removing an unreferenced response takes that one out of the garbage and makes no other |
| `ResponseLogReplay.GarbageHasUnreferenced` | migrations/versions/20260424_0003_responses_gc.py:230-246 | as long as there is garbage, some of it is unreferenced: nothing unreachable keeps itself alive |
| `ResponseLogReplay.SweepTakesGarbage` | migrations/versions/20260424_0003_responses_gc.py:222-249 | any run of the collector removes garbage only, makes none and keeps all constraints |
| `ResponseLogReplay.SweepSparesHeld` | migrations/versions/20260424_0003_responses_gc.py:70-147 | no run of the collector touches a live-leased response or an ancestor of one, nor what it replays |
| `ResponseLogReplay.QuiescentHoldsHeld` | migrations/versions/20260424_0003_responses_gc.py:222-249 | when nothing unreferenced is left, exactly the live-leased responses and their ancestors are |
| `ResponseLogReplay.SweptAll` | migrations/versions/20260424_0003_responses_gc.py:222-249 | a sweep that filled its batch or found nothing more took exactly as much garbage as the batch allows, all of it if it fits |
| `ResponseLogReplay.CollectedSweep` | migrations/versions/20260424_0003_responses_gc.py:95-145 | a collector run along a chain removed as many responses as it counts, and at least one when it began at an unreferenced one |
| `ResponseLogReplay.CollectedLoosens` | migrations/versions/20260424_0003_responses_gc.py:95-145 | a run along a chain that was not stopped by its limit leaves nothing unreferenced that was not so before, and its start is gone or referenced |
| `ResponseLogReplay.CollectedEdge` | migrations/versions/20260424_0003_responses_gc.py:95-145 | whatever stops a run along a chain, nothing but the first response it left can be newly unreferenced |
| `ResponseLogReplay.NoneLoosenedHolds` | migrations/versions/20260424_0003_responses_gc.py:149-249 | where everything was held and nothing has been left unreferenced since, everything is held |
| `ResponseLogEffects.CreatedTaken` | migrations/versions/20260424_0004_responses_delta_log_functions.py:247-347 | a creation succeeds exactly when the key is named and new, the parent is there, every item is an object that says its type, no two different payloads of the scope share a hash, and no retained response already leases something for itself |
| `ResponseLogEffects.CreatedRows` | migrations/versions/20260424_0004_responses_delta_log_functions.py:247-347 | a creation that succeeds leaves each input and each output as an item row at its position and no other item of the response, its record with parent and status above all others, its own lease until the given time if retained, and every other row as it was |
| `ResponseLogEffects.AddItemRows` | migrations/versions/20260424_0004_responses_delta_log_functions.py:114-230 | an item is added exactly when its key is free, its response is there and its hash is not that of another payload; its row then holds it and no other row changes |
| `ResponseLogEffects.ReplacedRows` | src/plap/responses/store.py:369-434 | an item is replaced exactly when it is there and the new one has no other payload's hash; its row then holds the new one and no other row changes |
| `ResponseLogEffects.TerminatedRows` | src/plap/responses/store.py:436-563 | a response ends exactly when it is queued or in progress and its conversation, if any, can be moved to it; its record then has the status asked for and is otherwise unchanged, and the conversation has it as head without a retention |
| `ResponseLogEffects.HeadMovedRows` | migrations/versions/20260424_0004_responses_delta_log_functions.py:537-564 | a head is moved exactly when conversation and response exist or may; the conversation then has this head and this retention and leases it alone |
| `ResponseLogEffects.LeaseRefreshedRows` | migrations/versions/20260424_0004_responses_delta_log_functions.py:459-517 | a lease is refreshed exactly when the response is there and the owner is named or leases already; the owner then leases this response alone, until the given time, and other leases are as they were |
| `ResponseLogEffects.ReleasedRows` | migrations/versions/20260424_0004_responses_delta_log_functions.py:519-535 | a released owner has no live lease, and all others are as they were |
| `ResponseLogEffects.LeaseMarkedRows` | migrations/versions/20260424_0002_responses_delta_log_schema.py:174-198 | one lease gets the mark and nothing else changes, unless another lease of its owner is live and it would be, too |
| `ResponseLogEffects.DeletedRows` | src/plap/responses/store.py:630-668 | a response is deleted exactly when it is there and not deleted before; exactly the conversations it headed are gone, with their live leases, and its own live lease is |
| `ResponseLogEffects.OverdueRows` | migrations/versions/20260424_0003_responses_gc.py:149-220 | a live lease whose time is up, and a conversation kept no longer, and no other, can be taken, the conversation with its lease |
| `ResponseLogEffects.RemovedSwept` | migrations/versions/20260424_0003_responses_gc.py:104-143 | a removed response takes its items, leases and tombstone along, and a payload exactly when it was used and nothing left uses it |
| `ResponseLog.Database.InsertItemRow` | migrations/versions/20260424_0002_responses_delta_log_schema.py:368-396 | inserting an item row counts one more use of its payload; the counters equal the rows they count |
| `ResponseLog.Database.DeleteItemRow` | migrations/versions/20260424_0002_responses_delta_log_schema.py:368-396 | deleting an item row counts one use less; the counters equal the rows they count |
| `ResponseLog.Database.InsertRecordRow` | migrations/versions/20260424_0002_responses_delta_log_schema.py:398-426 | inserting a record counts one more child of its parent; the counters equal the rows they count |
| `ResponseLog.Database.DeleteRecordRow` | migrations/versions/20260424_0002_responses_delta_log_schema.py:398-426 | deleting a record that blocks nothing cascades to its item rows and counts one child less of its parent |
| `ResponseLog.Database.InsertLeaseRow` | migrations/versions/20260424_0002_responses_delta_log_schema.py:428-480 | inserting a live lease counts one more lease of its response |
| `ResponseLog.Database.UpdateLeaseRow` | migrations/versions/20260424_0002_responses_delta_log_schema.py:428-480 | a lease that is moved or stops being live leaves one count and joins another |
| `ResponseLog.Database.HoldLease` | migrations/versions/20260424_0002_responses_delta_log_schema.py:482-547 | the lease of a conversation is moved to its head, or created |
| `ResponseLog.Database.GetOrCreatePayload` | migrations/versions/20260424_0004_responses_delta_log_functions.py:114-158 | a payload is found by its hash, refused when the content differs, and otherwise created |
| `ResponseLog.Database.CreateResponseRecord` | migrations/versions/20260424_0004_responses_delta_log_functions.py:247-347 | creates the record, its lease if retained, and its items, or changes nothing; which of the two follows from the tables before; each input is then an input row and each output an output row at its position, there is no other item of the response, and every other row is as it was |
| `ResponseLog.Database.AppendOutputItem` | src/plap/responses/store.py:322-367 | appends one output row, which then holds the item, no other row changing, or changes nothing |
| `ResponseLog.Database.ReplaceOutputItem` | src/plap/responses/store.py:369-434 | replaces one output row by delete and insert, which then holds the item, no other row changing, or changes nothing |
| `ResponseLog.Database.TerminateResponse` | src/plap/responses/store.py:436-563 | leaves a running status once for the one asked for, moving the conversation head if there is one, or changes nothing |
| `ResponseLog.Database.CreateOrRefreshResponseLease` | migrations/versions/20260424_0004_responses_delta_log_functions.py:459-517 | the owner holds one live lease, on this response, or nothing changes |
| `ResponseLog.Database.ReleaseResponseLease` | migrations/versions/20260424_0004_responses_delta_log_functions.py:519-535 | the live lease of the owner is gone |
| `ResponseLog.Database.MarkResponseLease` | migrations/versions/20260424_0002_responses_delta_log_schema.py:327-347 | a lease changes its status alone, unless that would make a second live one for its owner |
| `ResponseLog.Database.MoveConversationHead` | migrations/versions/20260424_0004_responses_delta_log_functions.py:537-564 | the conversation has the new head and its one live lease holds it, or nothing changes |
| `ResponseLog.Database.DeleteResponse` | src/plap/responses/store.py:630-668 | the tombstone is set once, conversations headed by the response and its own live lease go, or nothing changes |
| `ResponseLog.Database.RemoveResponse` | migrations/versions/20260424_0003_responses_gc.py:104-143 | the dead leases, the record with its items, and exactly the payloads that only it used are gone, and nothing else |
| `ResponseLog.Database.GcDeleteResponseIfUnreferenced` | migrations/versions/20260424_0003_responses_gc.py:70-147 | deletes a contiguous run of the ancestor chain from the response up, at most as many as allowed, and stops early only where a reference, or the end of the chain, stops it; with each response go its items and leases, and the payloads are gone that were used and no longer are |
| `ResponseLog.Database.GcPruneUnreferencedResponses` | migrations/versions/20260424_0003_responses_gc.py:222-249 | deletes exactly the smaller of the batch and the garbage; when the garbage fits, what is left is exactly the live-leased responses and their ancestors; payloads are gone exactly where they were used and no longer are |
| `ResponseLog.Database.GcExpireResponseLeases` | migrations/versions/20260424_0003_responses_gc.py:149-184 | expired live leases go until the batch is spent, and no more is spent than leases and responses are gone; when it is not spent no expired one is left, nothing is left unreferenced that was not so before, and a log without garbage is without garbage again; when it is, one response at most is; other live leases and all conversations stay; payloads are gone exactly where they were used and no longer are |
| `ResponseLog.Database.GcPruneConversations` | migrations/versions/20260424_0003_responses_gc.py:186-220 | conversations past their retention go until the batch is spent, and no more is spent than conversations and responses are gone; when it is not spent none is left, nothing is left unreferenced that was not so before, and a log without garbage is without garbage again; when it is, one response at most is; other conversations stay; payloads are gone exactly where they were used and no longer are |
| `ResponseLog.Database.GcPrunePayloads` | migrations/versions/20260424_0003_responses_gc.py:251-271 | payloads that no item uses go, and nothing else, one for each step, up to the limit; below it none is left |
| `ResponseLog.Database.CollectUntilQuiescent` | migrations/versions/20260424_0003_responses_gc.py:296-304 | calling the scheduled collection over and over, with any positive batch, ends with exactly the garbage gone, and with it exactly the payloads that were used and no longer are |
| `ResponseLog.Database.Execute` | migrations/versions/20260424_0004_responses_delta_log_functions.py:114-564 | every transaction that spares the heads, run on the tables with their counters, does what the step of the specification does |
| `ResponseLog.Database.ExecuteAll` | migrations/versions/20260424_0004_responses_delta_log_functions.py:114-564 | any careful run on the tables ends in the state of the specified run, with counters, constraints and the head match intact |
| `JsonScan.SkipIgnorable` | src/plap/llms/json/recovery.py:31-51 | white space and both kinds of comments are skipped, as the specification says, to where neither follows |
| `JsonScan.SkipStops` | src/plap/llms/json/recovery.py:37-51 | skipping is idempotent and stops at neither white space nor a comment |
| `JsonScan.PairedCloses` | src/plap/llms/json/recovery.py:427-436 | in a strict string body the first unescaped quote is the one that closes it |
| `JsonScan.DecodeStrict` | src/plap/llms/json/recovery.py:194-251 | the tolerant decoder gives every strict string body the meaning of section 7 of RFC 8259 |
| `JsonScan.DecodeRelaxedString` | src/plap/llms/json/recovery.py:194-251 | the loop over a string computes the decoding that is proved to agree with the strict one |
| `JsonScan.NormalizedNumeral` | src/plap/llms/json/recovery.py:291-313 | a strict numeral is taken for the number of section 6 of RFC 8259 exactly when it is no integer above the digit limit |
| `JsonScan.ScalarOfNumeral` | src/plap/llms/json/recovery.py:586-616 | a strict numeral is neither a word nor hexadecimal, and as a token means what it means strictly |
| `JsonStrict.ValueNoKey` | src/plap/llms/json/recovery.py:384-416 | at the start of a strict value nothing looks like a key, whatever the schema accepts |
| `JsonTruncation.UptoWhole` | src/plap/llms/json/recovery.py:348-774 | as many characters as a strict value has mean what the value means |
| `JsonTruncation.StringKept` | src/plap/llms/json/recovery.py:477-512 | of a string that is cut off there is what stands behind the opening quote, as it is written in partial mode and decoded otherwise |
| `JsonTruncation.ItemsKept` | src/plap/llms/json/recovery.py:630-671 | of an array that is cut off there are exactly the elements whose value has begun, all that are complete as they are, and behind them one at most that is cut |
| `JsonTruncation.MemberCut` | src/plap/llms/json/recovery.py:694-727 | a member cut off in its key has what there is of the key and null, one cut off before its value has null, and any other what there is of its value |
| `JsonTruncation.MembersKept` | src/plap/llms/json/recovery.py:673-749 | of an object that is cut off exactly the members that are complete are assigned as they are, and then the one whose key has begun, if there is one |
| `JsonTruncation.CutKeyOverwrites` | src/plap/llms/json/recovery.py:695-706 | a key that is cut off can be another key of its object, whose value is then null for as long |
| `JsonRecovery.Opened` | src/plap/llms/json/recovery.py:630-637 | with the container at a path open, the open containers are those above its elements |
| `JsonRecovery.Parser.LooksLikeNextKey` | src/plap/llms/json/recovery.py:384-416 | true exactly when a quoted or bare key with a colon behind it comes next that is not empty and that the schema accepts |
| `JsonRecovery.Parser.ParseKeyString` | src/plap/llms/json/recovery.py:449-475 | a strict key is decoded and read exactly; cut off, it reads to the end, is incomplete, and is the rest of the text, decoded unless in partial mode |
| `JsonRecovery.Parser.ParseStringValue` | src/plap/llms/json/recovery.py:477-512 | a strict string is decoded and read exactly; cut off, it reads to the end, is incomplete, and is the rest of the text, decoded unless in partial mode; the index reset never happens on strict text and never goes before the value |
| `JsonRecovery.ParityOfStrict` | src/plap/llms/json/recovery.py:316-333 | an expression that is nothing but a strict string is normalized to the meaning of that string |
| `JsonRecovery.ParityOfPlain` | src/plap/llms/json/recovery.py:316-333 | without backslashes an expression between two equal quotes loses them unless a positive even number of them is inside, and every other expression stays as it is |
| `JsonRecovery.Parser.CaptureGreedyValue` | src/plap/llms/json/recovery.py:538-575 | of a strict word the capture is the word itself, and it ends with the blanks behind it |
| `JsonRecovery.Parser.ParseNumberOrToken` | src/plap/llms/json/recovery.py:586-616 | a strict word or numeral means what it means strictly, and is read to its end; cut off, it is read as the token there is |
| `JsonRecovery.Parser.ParseMember` | src/plap/llms/json/recovery.py:694-727 | a strict member is read and assigned, and a cut-off one as far as there is text for it, which leaves nothing to read, marked incomplete here or by the caller; every other reading advances or ends |
| `JsonRecovery.Parser.ParseArray` | src/plap/llms/json/recovery.py:630-671 | a strict array gives its items and is read exactly; cut off, all is read, it is incomplete, and it gives the items there is text for; the open containers are restored, and it ends on any text |
| `JsonRecovery.Parser.ParseObject` | src/plap/llms/json/recovery.py:673-749 | a strict object gives its members in order, the last of equal keys winning; cut off, all is read, it is incomplete, and it gives the members there is text for; the open containers are restored, and it ends on any text |
| `JsonRecovery.Parser.ParseValue` | src/plap/llms/json/recovery.py:751-767 | called with the containers above its path open, on any text it ends with them restored; a strict value means what it means, is read to its end, rejects nothing, and when cut off is read to the end and is what there is text for, incomplete exactly when it is a string, an array or an object |
| `JsonRecovery.Parser.Parse` | src/plap/llms/json/recovery.py:769-774 | strict text gives its meaning with neither flag set; cut off, it gives what there is text for and is not rejected, and is incomplete exactly when it is a string, an array or an object; blanks alone are rejected; for any answers of the schema |
| `JsonRecovery.Recover` | src/plap/llms/json/recovery.py:777-809 | outcomes: what decodes strictly is complete, nothing is incomplete outside partial mode, and in partial mode strict text is complete with its meaning, and cut-off text has the value there is text for, complete exactly when it is a word or a number |
| `JsonPrint.PrintMeaning` | src/plap/llms/json/recovery.py:348-774 | the strict meaning of a printed value is the value, if and only if all its integers fit the digit limit |
| `JsonPrint.RoundTrip` | src/plap/llms/json/recovery.py:348-774 | the parser on a print reads all of it with neither flag set, and gives the value back if and only if its integers fit the digit limit |
| `JsonPrint.LongIntegerIsLost` | src/plap/llms/json/recovery.py:291-313 | for every positive limit there is an integer that is too long for it and is read as its text |
| `JsonPrint.ItemsStay` | src/plap/llms/json/recovery.py:630-671 | of a printed list, however much of the text there is, all items but the last one there are those of the list |
| `JsonPrint.MembersStay` | src/plap/llms/json/recovery.py:673-749 | of a printed dictionary, however much of the text there is, its first members are there as they are, and at most one key more is assigned |
| `JsonPrint.Truncated` | src/plap/llms/json/recovery.py:477-749 | in partial mode every non-empty proper prefix of a printed array or object is incomplete, never rejected, with the value there is text for; of an array all items but the last one there are final |
| `DsmlText.EncodeArguments` | src/plap/llms/completions/encoding_dsv4.py:134-161 | the arguments become one parameter per member in order, strings as they are and other values as JSON; what does not decode becomes one parameter |
| `DsmlText.WrittenParameter` | src/plap/llms/completions/encoding_dsv4.py:134-161 | a string is written as it is and marked as a string, anything else as JSON and marked as none |
| `TextSearch.ReadUntilStop` | src/plap/llms/completions/encoding_dsv4.py:603-624 | the loop cuts the text as `StopAt` says, which cuts it at the first stop |
| `TextSearch.StopIsFirst` | src/plap/llms/completions/encoding_dsv4.py:603-624 | the text is cut where no other stop is found earlier, of several in one place at the first listed, and nowhere exactly when no stop is found before the end |
| `TextSearch.StopsBehind` | src/plap/llms/completions/encoding_dsv4.py:603-624 | a stop behind a text that is free of both stops, neither of which can straddle the boundary, cuts out exactly that text |
| `Dsml.ParseParameters` | src/plap/llms/completions/encoding_dsv4.py:655-676 | on written parameters the loop reads each one off and ends behind the call, or fails where two names read the same |
| `Dsml.ParseToolCalls` | src/plap/llms/completions/encoding_dsv4.py:627-681 | on written calls the loop reads each name and its parameters, zero included, and ends behind the block |
| `Dsml.ParseMessage` | src/plap/llms/completions/encoding_dsv4.py:684-740 | on a written turn: reasoning and content as written, the calls as they are read one by one, and an error exactly where there is neither end of sentence nor call or where names coincide |
| `DsmlRoundTrip.ParameterRead` | src/plap/llms/completions/encoding_dsv4.py:660-668 | a written parameter is read as itself if its name contains no mark, and otherwise with the name cut off before a quote |
| `DsmlRoundTrip.CallRead` | src/plap/llms/completions/encoding_dsv4.py:643-679 | a call comes back with its arguments unchanged if and only if none of its names contains a mark |
| `DsmlRoundTrip.ArgumentsDumped` | src/plap/llms/completions/encoding_dsv4.py:164-182 | the recovered arguments are what json.dumps writes for the dictionary |
| `DsmlRoundTrip.ReadIsWhole` | src/plap/llms/completions/encoding_dsv4.py:684-740 | reading a written turn gives all of it back if and only if no parameter name contains a mark |
| `DsmlRoundTrip.MarkIsLost` | src/plap/llms/completions/encoding_dsv4.py:661-664 | a parameter named by the mark itself is not recovered |
| `DsmlRoundTrip.ParseRendered` | src/plap/llms/completions/encoding_dsv4.py:318-356 | parsing a rendered turn, thinking or not, recovers reasoning, content, and each name with its ordered arguments, if and only if no parameter name contains a mark; without call and end of sentence it fails |
| `StreamCoordinator.Coordinator.Publish` | src/plap/responses/streaming.py:219-222 | events get consecutive numbers; while none is lost the numbers are 1 to n |
| `StreamCoordinator.Coordinator.AppendItem` | src/plap/responses/streaming.py:224-234 | a row and an item are appended together, or neither |
| `StreamCoordinator.Coordinator.ReplaceItem` | src/plap/responses/streaming.py:236-244 | row and item are replaced together, or neither, and then agree |
| `StreamCoordinator.Coordinator.CreatedResponse` | src/plap/responses/streaming.py:463-477 | a response that is accepted is running, stored and announced; one that was stored but could not be announced is failed in memory and store when acceptance is reported as failed, and still running when its compensation is |
| `StreamCoordinator.Coordinator.Emit` | src/plap/responses/streaming.py:482-484 | an item is appended and announced from added to done; whatever raises, memory, store and events agree afterwards |
| `StreamCoordinator.Coordinator.EmitItemEvents` | src/plap/responses/streaming.py:431-461 | exactly the events of the item are published, in order, and the client that folds them has the item |
| `StreamCoordinator.Coordinator.EmitContentEvents` | src/plap/responses/streaming.py:311-386 | one content part is announced, annotated, spelled and closed |
| `ResponseEvents.MessageInOrder` | src/plap/responses/streaming.py:311-386 | the parts of a message come one after the other, each added, annotated, spelled, done and closed |
| `ResponseEvents.SummaryInOrder` | src/plap/responses/streaming.py:388-429 | the parts of a summary come one after the other, each added, spelled, done and closed |
| `ResponseEvents.MessageSpelled` | src/plap/responses/streaming.py:311-386 | joining the deltas of a part of a message gives the text or refusal of that part |
| `ResponseEvents.SummarySpelled` | src/plap/responses/streaming.py:388-429 | joining the deltas of a summary part gives its text |
| `StreamCoordinator.Coordinator.BeginReasoning` | src/plap/responses/streaming.py:486-512 | one item is open at a time, and it follows the last finished one unless it is a checkpoint |
| `StreamCoordinator.Coordinator.ReplaceReasoning` | src/plap/responses/streaming.py:514-526 | the open item takes the new state, of the same kind, with no event |
| `StreamCoordinator.Coordinator.SummaryDelta` | src/plap/responses/streaming.py:528-553 | summary text is added to what is pending and published, after the part itself when it is the first |
| `StreamCoordinator.Coordinator.SummaryDone` | src/plap/responses/streaming.py:555-583 | pending summary text becomes a part of the open item, in memory alone, and the part is announced as done and closed |
| `StreamCoordinator.Coordinator.FinishDraft` | src/plap/responses/streaming.py:295-309 | the open item is stored as it is, announced as done and becomes the last of the chain |
| `StreamCoordinator.Coordinator.FinishReasoning` | src/plap/responses/streaming.py:585-597 | nothing is finished with summary text pending or a state of another kind |
| `StreamCoordinator.Coordinator.Finish` | src/plap/responses/streaming.py:599-627 | completed and incomplete happen at most once to a stored response, leave status and rows as in the response, and are announced last |
| `StreamCoordinator.Coordinator.CancelledResponse` | src/plap/responses/streaming.py:629-643 | cancelling stores the open item as it is, without its pending summary, changes no other item, and happens at most once to a stored response |
| `StreamCoordinator.Coordinator.FailedResponse` | src/plap/responses/streaming.py:645-652 | failing closes the open item as cut short with what summary was pending, changes no other item, publishes exactly that and the end, and happens at most once to a stored response |
| `StreamCoordinator.Perform` | src/plap/responses/streaming.py:482-627 | a call of the coordinator has its whole effect on items, open item, chain and response, or fails; one that it does not refuse fails only if a call to store or channel does, and leaves no more than the stated part of its effect |
| `StreamCoordinator.Drive` | src/plap/responses/routes.py:330-331 | the calls of a script are made in order, up to one that fails and goes unhandled, each with its effect or a failure |
| `StreamCoordinator.FirstEndDecides` | src/plap/responses/streaming.py:599-627 | of a stored response the one end that succeeds gives the status and, with what was made by then, the output; no other end succeeds |
| `StreamCoordinator.ResponseFromEnd` | src/plap/responses/streaming.py:599-627 | whatever response a script leaves was there before, or is one that a call to end it made |
| `StreamCoordinator.DroveWithoutFault` | src/plap/responses/streaming.py:482-627 | when every call comes through, a script leaves exactly what its calls make, those left out that the coordinator refuses |
| `StreamCoordinator.ReturnedNormally` | src/plap/responses/routes.py:328-354 | a stored response whose run returns normally is failed exactly when no end of its handlers took effect, with an open item cut short; otherwise it is as that end said |
| `StreamCoordinator.CancelledWhileRunning` | src/plap/responses/routes.py:333-338 | handlers that are cancelled while the response runs leave it cancelled, with an open item as it is, if saving and cancelling come through |
| `StreamCoordinator.ExecuteResponse` | src/plap/responses/routes.py:330-354 | the start is announced, the handlers run, and the response stays as they ended it or is saved and then cancelled or failed: with storage on it is failed exactly when no end of theirs took effect, and otherwise has the status and output of the one that did; returns normally only with the response terminal, in the store too; with no event lost a terminal one was published, and when it is the only one, as always with storage on, the events fold to the output |
| `StreamCoordinator.RunResponse` | src/plap/responses/routes.py:319-354 | over whole runs with any handlers and any failures: once accepted the response goes as its handlers make it, and when every call comes through it is exactly what they make; terminal on return, store and memory agreeing, and when no event was lost numbers 1 to n, a terminal event, and, if there is only one, as always with storage on, a fold equal to the output |
| `ChatStream.StreamState.Apply` | src/plap/llms/completions/common.py:459-515 | a delta is handed on or held back, or refused exactly when output or a second finish reason follows a finish reason |
| `ChatStream.StreamState.Finish` | src/plap/llms/completions/common.py:517-544 | there is a last delta exactly when there was output or a finish reason; it says tool calls exactly when there were any, else the reason given unless that speaks of calls, else that it stopped |
| `ChatStream.Transduce` | src/plap/llms/completions/common.py:446-544 | a stream is accepted if and only if nothing but metadata follows a finish reason and a reason is given or can be inferred; then one finish reason is handed on, last, the one so settled, and the deltas add up to what came in |
| `ChatStream.CallsApart` | src/plap/llms/accumulator.py:251-276 | however calls interleave, each is made of its own deltas alone, in their order |
| `ChatStream.SumTogether` | src/plap/llms/accumulator.py:241-276 | the text of each kind is put together in the order of the deltas |
| `ChatStream.CallTogether` | src/plap/llms/accumulator.py:36-48 | the arguments of a call are put together in order, and of its ids and names the last counts |
| `ChatStream.MetaTogether` | src/plap/llms/accumulator.py:241-276 | of each kind of metadata the last that is given counts |
| `ChatStream.Accumulator.Apply` | src/plap/llms/accumulator.py:241-276 | the parts kept are those of the sum of the deltas, and the snapshot is that of the sum; at a finish reason it fails without a model |
| `ChatStream.Accumulator.Build` | src/plap/llms/accumulator.py:278-293 | the message is that of the sum, its calls in order of index; if one lacks id or name it fails with what the first such call lacks |
| `ChatStream.Accumulate` | src/plap/llms/accumulator.py:224-310 | folding a stream succeeds if and only if the first delta of every call has id and name and the model is named by the time of a finish reason; every snapshot is then that of the deltas so far, and otherwise it fails at the first that has none |
| `ChatStream.SettledMessage` | src/plap/llms/accumulator.py:224-310 | folding what is handed on of an accepted stream succeeds if and only if the first delta of every call has id and name and some delta names the model; the last snapshot then has the message that the raw deltas add up to and a result that says tool calls exactly when there were any |
| `ChatStream.SettledFoldable` | src/plap/llms/accumulator.py:241-310 | raw deltas and those handed on can be folded alike when every delta names the model, and otherwise differ only in when the model is named |
| `ChatStream.LateId` | src/plap/llms/accumulator.py:50-54 | a call whose id comes after its first delta cannot be folded, though its deltas add up to a message |
| `ChatStream.LateModel` | src/plap/llms/accumulator.py:296-300 | raw deltas that name the model only after the finish reason cannot be folded |
| `Router.SplitJoins` | src/plap/llms/completions/router.py:31-35 | splitting the chain at commas loses nothing |
| `Router.RouteFor` | src/plap/llms/completions/router.py:384-395 | the route is the first of those with the longest matching prefix; there is none if none matches or no provider model is left |
| `Router.TryStream` | src/plap/llms/completions/router.py:177-201 | of one call everything from its first output on is handed on; one that ends before is a provider error |
| `Router.Stream` | src/plap/llms/completions/router.py:293-382 | every call went as its provider delivered it; what is handed on is all that the calls handed on, and comes from the last call alone, the ones before it having had no output and handled faults; at most three calls per entry; a run that hands nothing on ends with the last entry |
| `Router.HandedByOne` | src/plap/llms/completions/router.py:316-331 | in any run all that is handed on comes from one call |
| `Router.WhatFollows` | src/plap/llms/completions/router.py:293-382 | output ends a run, as does an unhandled fault; an entry that is silent, which includes an empty stream, or fails transiently is called up to three times, and then, or after a permanent fault, the next entry is |
| `Router.StreamSettled` | src/plap/llms/completions/router.py:293-382 | what the providers deliver settles the run: the same calls in the same order with the same outcomes |
| `Router.Complete` | src/plap/llms/completions/router.py:228-291 | every call went as its provider answered; the run is ended by the first call that succeeds, whose answer is the result under the name of its entry, by an unhandled fault, or after the last entry |
| `Router.CompletionSettled` | src/plap/llms/completions/router.py:228-291 | what the providers answer settles the run |
| `Router.WhatFollowsAnswer` | src/plap/llms/completions/router.py:228-291 | an answer ends a run, as does an unhandled fault; an entry that fails transiently is called up to three times, and then, or after a permanent fault, the next entry is |
| `Router.RunInOrder` | src/plap/llms/completions/router.py:302-370 | entries are tried in order, each with its tries in a row, and no call follows one with output |
| `Retry.FirstRetryMessage` | src/plap/llms/retry.py:216-225 | the verdict is that of the first validator that does not pass, and none if and only if all pass |
| `Retry.Passed` | src/plap/llms/retry.py:216-225 | the verdict is to pass if and only if every validator passes |
| `Retry.Stream` | src/plap/llms/retry.py:228-284 | what is yielded, the rejections before each attempt and the outcome are as the client streamed and the validators judged, attempt by attempt, up to the limit; below it exactly five things end a run, each with its outcome, and a rejection or a fault between the first delta and a result is always followed by another attempt; a normal return has a last snapshot whose result every validator passes |
| `Retry.EndedOrRetried` | src/plap/llms/retry.py:247-282 | anything raised, a fault before any delta, a stream that ends without a result, a result that all validators pass, and a validator that raises end a run; a result whose first validator that does not pass rejects it, and a fault after some delta without a result, lead to another attempt; never both |
| `Retry.FaultRestores` | src/plap/llms/retry.py:253-261 | a fault before a result is followed by exactly the history before the attempt and leaves the rejections as they were; a fault before any delta ends the run with nothing yielded |
| `Retry.RejectionDelivered` | src/plap/llms/retry.py:263-282 | each rejected turn is the result of an attempt that was made with exactly the rejections before it, and was rejected there with this message |
| `Retry.HistoryGrows` | src/plap/llms/retry.py:267-282 | the history only grows, by at most one rejection for each attempt |
| `Retry.ShownExtends` | src/plap/llms/retry.py:245-282 | every snapshot is the history before some attempt, alone or with a turn that attempt streamed, and no later snapshot belongs to an earlier attempt |
| `Retry.NormalEnd` | src/plap/llms/retry.py:263-269 | an attempt ends the run normally if and only if it has a result that every validator passes |
| `Overlays.ReachableTight` | src/plap/config.py:137-181 | every binding of an enumerated request selects something |
| `Overlays.SomeReachable` | src/plap/config.py:137-181 | for every request some enumerated one is part of it and selects the same paths in the same order |
| `Overlays.ReachableDiffer` | src/plap/config.py:137-204 | two enumerated requests that select the same paths are the same |
| `Overlays.CollectSame` | src/plap/config.py:184-204 | a request that keeps what another uses, and binds nothing else, selects the same |
| `Overlays.UsedEnds` | src/plap/config.py:185-202 | the selected paths end in exactly the bindings that are used |
| `Overlays.CollectLeads` | src/plap/config.py:184-204 | exactly the paths are selected that lead down the overlay along branches the request binds their axes to |
| `OverlayText.SelectionCut` | src/plap/config.py:184-204 | the text of a selection, paths with quoted keys joined by an ampersand, determines the selected paths and their order |
| `OverlayText.SelectionsDiffer` | src/plap/config.py:137-204 | two enumerated requests have the same selection text if and only if they are the same |
| `OverlayText.SomeSelection` | src/plap/config.py:137-204 | for every request some enumerated one is part of it and has the same selection text |
| `OverlayText.DumpedCut` | src/plap/config.py:195 | a quoted string ends where it says, whatever follows, and determines the string |
| `Overlays.MergeRequests` | src/plap/config.py:127-134 | requests merge exactly when they agree |
| `Overlays.ReachableRequests` | src/plap/config.py:137-181 | the loops give the enumerated requests, each once |
| `SchemaRefs.UnescapeEscape` | src/plap/llms/json/schema.py:64-77 | an escaped key names that key (section 4 of RFC 6901) |
| `SchemaRefs.FollowRefs` | src/plap/llms/json/schema.py:172-184 | references are followed until there is none or one repeats or leads nowhere, seeing fewer new ones each time; begun with none seen, it ends where following without a guard ends, and stops at a reference that still leads on exactly where that never ends |
| `SchemaRefs.TrailRepeats` | src/plap/llms/json/schema.py:172-184 | once a reference repeats, following without a guard never ends |
| `SchemaRefs.MergeKeeps` | src/plap/llms/json/schema.py:80-108 | merging loses no keyword of either side, adds none, and takes from the overlay what says of which type values are |
| `SchemaRefs.ResolveNode` | src/plap/llms/json/schema.py:164-246 | resolution ends on every schema graph, its depth at most linear in the references and dictionaries not yet seen, twice that with a value in hand; no keyword of the node is lost but the reference and what it is composed of, its types stay when no dictionary is in hand, every keyword of its parts is added, and a node with nothing to follow or merge comes back as it is |
| `SchemaRefs.RefGuardNeeded` | src/plap/llms/json/schema.py:177-178 | on a dictionary that refers to itself no number of steps is enough to follow its references without the guard |
| `SchemaRefs.DescentIsDeep` | src/plap/llms/json/schema.py:187-203 | resolution without the guard goes as deep as dictionaries are composed of each other |
| `SchemaRefs.NodeGuardNeeded` | src/plap/llms/json/schema.py:187-190 | on a dictionary composed of itself, resolution without the guard ends within no depth |
| `Budget.CompletionBudget.Record` | src/plap/llms/completions/budget.py:86-91 | until it is finished, what is spent is the internal cost of all charges |
| `Budget.CompletionBudget.Anchor` | src/plap/llms/completions/budget.py:93-99 | the first charge for the usage stands for the input, and the first anchor stays |
| `Budget.CompletionBudget.BuildUsage` | src/plap/llms/completions/budget.py:101-129 | the report is at least the visible tokens and at least the normalized cost, the difference counting as reasoning |
| `Budget.CompletionBudget.Finish` | src/plap/llms/completions/budget.py:131-155 | once finished, the total debit is the normalized cost, the output charge costing its output alone; there is a report exactly when something was charged, and it says the maximum of that cost and the visible tokens |
| `Budget.NormalizedOutput` | src/plap/llms/completions/budget.py:107-121 | taking one charge as output changes the total by that charge alone |
| `Budget.TokensCounted` | src/plap/llms/completions/budget.py:25-34 | no more input is cached than there is; visible output counts in full and reasoning at its rate, rounded up |
| `Budget.CostRoundsUp` | src/plap/llms/completions/budget.py:36-50 | the cost is the least integer not below cached input at the cached rate, other input at its own, and output at the rate of output |
| `Budget.CompletionFits` | src/plap/llms/completions/budget.py:73-84 | a completion within its granted limit, with reasoning at most output and a reasoning rate at most one, costs no more output than remains |

## Left out

- Concurrency: transactions are atomic steps; row locks, `skip locked`, the cron jobs and real clocks are not modelled, and "expired" is a comparison with a given time.
- Hashing: the digest of a payload is a field of it; two payloads with one digest and different content are refused, as in the code.
- Columns that nothing here depends on: `completed_at`, `fields`, timestamps other than creation order, and the reading side of tombstones.
- Counters beyond their range: bigint columns are unbounded integers.
- `append_response` and the validation of item arrays other than the requirement that an item is an object.
- JsonRecovery.Recover: the strict decoder's verdict is a parameter, and so is the preparation of text that is not partial (comment stripping and trimming to a container or key).
- What a schema accepts: the parser holds the schema's answers as any functions of the open containers and the path.
- JsonRecovery.Parser.ShouldCaptureStringExpression: its contract goes one way only, since no strict text reaches it; how loose texts are read is modelled but not judged.
- Surrogate pairs: a Dafny character is no surrogate, so an escaped one decodes to U+FFFD where the code gives a lone surrogate, and prints contain no such escapes.
- Floating point: a JSON number with fraction or exponent is the text handed to the float constructor, and the budget counts in exact reals.
- str.isalpha, str.isdigit and the digit values beyond ASCII are tables given as a parameter.
- DsmlRoundTrip.ParseRendered: whether a turn shows its reasoning is a parameter, taken from the mode, the kind of the message before and the position of the last user message; integers too long to print and argument texts that decode to something other than an object, which raise, are left out.
- The other branches of `render_message`, message merging and sorting, and the tool prompt.
- StreamCoordinator.ExecuteResponse: a call that raises is rolled back or not delivered, and cancellation scopes are not modelled, so a cancellation may arrive anywhere; the driver's handlers are any script of coordinator calls.
- Fields of part events other than their place and text, fields of responses other than status and output, and identifiers, which are parameters.
- Tool call repair in the accumulator.
- The non-streaming `complete` of the retrying client, which takes the last snapshot of the stream.
- Delays, timeouts and logging of the router; a timeout is one of the faults a provider may end with, and what providers do is a function of the model they are asked for and of the number of calls before.
- Retry.Stream: a validator is any function of the turn and of the messages added to the request, the rest of which does not change; the built-in ones are not modelled.
- Overlay entries that are no dictionaries, which both enumeration and selection skip; the CUE subprocess and the cache of resolved roots.
- SchemaRefs.MatchState: the validator gives any verdict, so which branch is merged is open; identities of merged dictionaries are taken to be new ones.
- Property lookup on resolved schemas, pattern matching, normalisation and schema validation.
- The budget's client wrapper beyond the limit it asks for, and its logging.
- HTTP and websocket routes, channels, authentication, sealing, the advisor plugin, `state.py`, providers, telemetry and start-up.
