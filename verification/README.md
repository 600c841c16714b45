# Verified model of the BYODS webhook server

A Dafny 4.11 model of the stateful parts of the BYODS/BYOVA webhook server, with proofs of what
they keep over whole runs. Check it with `dafny verify dfyconfig.toml` (add
`--resource-limit 2000000 --verification-time-limit 0`).

## What is modelled

- **The catalog store** (`Catalog`, `CatalogRepository`). The in-memory and the DynamoDB repository
  are classes whose methods are proved against step functions. A catalog rewrite is a sequence of
  table writes (delete the old items, put the new ones, put META); the table keeps a ghost log of
  every write, and the methods promise exactly that sequence, so the theorems about stopping between
  two writes and about interleaved writers speak of the very writes the methods perform.
  `CatalogRefinement`: the table-backed repository refines the in-memory one over every run.
  `CatalogCrash`: one writer at a time, crashing between any two writes. `CatalogSeeding`: any number
  of service tasks seeding at once. `CatalogReaders`: what can be read meanwhile. `CatalogCli`: the
  management commands. `CatalogLaws`: what every operation and command leaves, agent by agent.
- **The single table** (`Store`, `SingleTable`, `Interleaving`, `Service`). Six logical stores are packed into one map keyed by
  pairs of strings. The encoding is injective over all strings, each write changes one slot of one
  store, and over every run each owner's data (the catalog, the integration, every single org) ends
  up as if only its own calls had been made, also when the calls of different owners interleave write
  by write and may stop between two writes. `Service` makes the calls on the repositories themselves.
- **Tokens and authorization** (`TokenStorage`, `Authorization`). Encrypted tokens, org profiles, the
  paged scan for registered orgs, and a state machine of interleaved and crashing authorizations.
- **The audit log** (`Redaction`, `IsoTime`, `Audit`). Redaction of token-like text, the ISO text of
  timestamps, and the newest-first query with limit and lower bound.
- **The media stream** (`CallerStream`, `StreamProperties`, `SessionProperties`, `ResponseQueue`). The request reader is an
  object whose calls into the SDK are recorded, any of which may raise; its trace is proved equal to a
  specification written request by request. The response queue is a state machine with any number of
  producers and one consumer; the reader, the handlers and the generator then run as one fair system.
- **The webhook rate limit** (`RateLimit`) and **data source registration** (`DataSources`).

Assumptions: single table operations are atomic and reads are strongly consistent; a query returns one
page; the table does not change during a scan; strings are sequences of characters ordered
lexicographically; encryption is an ideal box that only its own key opens; the clock, event ids, data
source ids and the scan order are parameters; new data source ids are fresh; for the theorems on the
rate limit the clock does not go back between webhook requests of one client
(`RateLimit.ClockSetBackAdmitsTooMany` shows what can happen when it does).

## Where the code does not do what is promised for it

The model follows the code in each case; the lemma named states the exact extent.

- Seeding recovers from crashes only until META exists. A rewrite of a seeded catalog that stops
  exactly between its last delete and its first put leaves a catalog that restarts do not reseed and
  no command can repair; stopped anywhere else, a valid catalog is left
  (`CatalogCrash.EmptiedBehindTheDeletes`, `CatalogCrash.CrashedRewriteStaysEmpty`,
  `CatalogCli.CommandsCannotMendACrash`). Discovery can see an empty catalog, though never an invalid
  one: proved for one writer (`CatalogCrash.ReadersSeeAValidCatalogOrNone`) and for any number of
  tasks seeding (`CatalogReaders.ReadersSeeAValidCatalogOrNone`). For two operators updating at once,
  of whom the edge cases listed for persistent application state speak, nothing is claimed.
- Tasks seeding at once end with the whole file exactly if no delete of one of its agents stays
  without a later put, and every delete that does was made by a task that crashed owing the agent
  (`CatalogSeeding.EverySeedingRun`); such a run exists (`CatalogSeeding.OwingCrashLosesTheAgent`).
- The two repositories reply alike to `ensure_seeded` exactly if something is cached or the seed file
  is readable; otherwise the in-memory one raises and the table-backed one does not
  (`CatalogRefinement.UnreadableSeedDiffers`).
- `EMPTY_CATALOG` is documented for removing the last agent but is never printed
  (`CatalogCli.EmptyCatalogIsNeverPrinted`, `CatalogCli.LastAgentStays`).
- Sanitizing a detail twice gives the same text only for a positive length limit
  (`Redaction.SanitizingIsStable`). Of `access_token` or `refresh_token` and what follows only the word
  is replaced; the value survives exactly if it contains no match itself
  (`Redaction.OnlyTheWordIsReplaced`).
- A `since` bound is compared by its wall clock, whatever its offset (`Audit.SinceComparesWallClocks`):
  it errs on exactly the events between its instant and its wall clock (`Audit.SinceErrsByTheOffset`).
- A stream that changes its conversation id between handled requests leaves all but the last
  registered; keeping it is exactly what every exit needs
  (`StreamProperties.UnregisteredIffStreamKeepsConversation`,
  `StreamProperties.KeepingIsWhatEveryExitNeeds`); such a stream is
  `StreamProperties.ChangedStreamStaysRegistered`. The response generator waits for ever exactly if
  the unregistration raises and no handler closes the stream (`ResponseQueue.GeneratorEndsIffMarked`);
  such a run is `ResponseQueue.GeneratorMayWaitForEver`.
- The persistence contract says deauthorization updates the profile; each profile write replaces the
  item, so that the time of the authorization is kept exactly if there was none
  (`TokenStorage.ProfileWritesForget`).

## Model

| member | source | states |
|---|---|---|
| Catalog.ValidateCatalogEntries | src/byova/catalog.py:24-52 | the loop with a seen-set and a default count gives the verdict defined by positions: the first faulty entry's own error, then several defaults |
| Catalog.VerdictIsValidity | src/byova/catalog.py:24-52 | validation passes exactly on non-empty catalogs with usable names, unique ids and at most one default |
| Text.WhatIsBlank | src/byova/catalog.py:33-38 | a text counts as empty exactly if it has nothing but whitespace |
| Catalog.VerdictIgnoresOrder | src/byova/catalog.py:24-52 | permuting a catalog never changes whether it validates |
| Catalog.UpsertOfValidCatalog | src/persistence/catalog_repository.py:46-51 | saving into a valid catalog fails only on the new entry's blank id, blank name or second default, with that error, whatever the order of the others |
| Catalog.RemovalFromValidCatalog | src/persistence/catalog_repository.py:53-59 | removing from a valid catalog fails validation only by emptying it |
| CatalogLaws.ErrorsInOrder | src/byova/catalog.py:24-52 | the first entry at fault decides the error: a blank id before a blank name before a repeated id; several defaults come last |
| CatalogRepository.InMemoryCatalogRepository.ListAgents | src/persistence/catalog_repository.py:37-40 | lazy load on first use, cached afterwards; a failed load leaves the cache empty |
| CatalogRepository.InMemoryCatalogRepository.EnsureSeeded | src/persistence/catalog_repository.py:42-44 | loads only when nothing is cached, and raises on a failed load |
| CatalogRepository.InMemoryCatalogRepository.SaveAgent | src/persistence/catalog_repository.py:46-51 | drop the namesake, append, validate, then replace the cache, or leave it |
| CatalogRepository.InMemoryCatalogRepository.RemoveAgent | src/persistence/catalog_repository.py:53-59 | not-found before validation; the cache changes only on success |
| CatalogRepository.InMemoryCatalogRepository.ReplaceAll | src/persistence/catalog_repository.py:61-63 | validated replacement of the cache |
| CatalogLaws.InMemoryKeepsTheOrder | src/persistence/catalog_repository.py:37-63 | the in-memory repository keeps its entries in order, puts a saved agent last, and a failing call changes nothing |
| CatalogLaws.WithoutInParts | src/persistence/catalog_repository.py:46-59 | dropping an agent keeps the others in their order |
| CatalogRepository.DynamoDBCatalogRepository.ListFromTable | src/persistence/catalog_repository.py:87-104 | the agent query in key order; raises on an empty or invalid catalog |
| CatalogRepository.DynamoDBCatalogRepository.WriteEntries | src/persistence/catalog_repository.py:126-160 | after validation performs exactly the planned writes in order (old keys deleted, new items put, META last), or raises and writes nothing |
| CatalogRepository.DynamoDBCatalogRepository.EnsureSeeded | src/persistence/catalog_repository.py:110-124 | writes nothing once META exists or when the file does not load, else performs the rewrite of the file's entries |
| CatalogRepository.DynamoDBCatalogRepository.SaveAgent | src/persistence/catalog_repository.py:162-167 | performs the rewrite of the listed entries with the agent replaced or appended |
| CatalogRepository.DynamoDBCatalogRepository.RemoveAgent | src/persistence/catalog_repository.py:169-175 | performs the rewrite of the listed entries without the agent, or reports it missing |
| CatalogRepository.DynamoDBCatalogRepository.ReplaceAll | src/persistence/catalog_repository.py:177-179 | performs the rewrite of the given entries |
| CatalogRepository.StoppedInDeletes | src/persistence/catalog_repository.py:135-140 | a rewrite stopped after k deletes has lost k old agent items and nothing else |
| CatalogRepository.StoppedInPuts | src/persistence/catalog_repository.py:141-151 | a rewrite stopped after j puts holds the first j new entries and no old one |
| CatalogRepository.FinishedRewrite | src/persistence/catalog_repository.py:126-160 | a finished rewrite holds exactly the new entries, and META counts them |
| CatalogLaws.ListingsAreValidated | src/persistence/catalog_repository.py:87-104 | a table listing succeeds exactly on a valid catalog, and says so when the table holds no agent |
| CatalogLaws.SaveStoresTheAgent | src/persistence/catalog_repository.py:162-167 | a saved agent is stored as given and every other one as before; it fails exactly on a blank id, a blank name or a second default |
| CatalogLaws.RemoveDropsTheAgent | src/persistence/catalog_repository.py:169-175 | a removed agent is gone and every other one as before; an unknown or the last agent is refused |
| CatalogLaws.ReplaceStoresTheEntries | src/persistence/catalog_repository.py:177-179 | a replacement succeeds exactly on a valid catalog and stores exactly it, counted by META |
| CatalogLaws.SeedStoresTheFile | src/persistence/catalog_repository.py:110-124 | the first seed stores exactly the file's entries, counted by META |
| CatalogRefinement.ListingOfStoredCatalog | src/persistence/catalog_repository.py:87-104 | listing a stored valid catalog succeeds with a permutation of it sorted by id |
| CatalogRefinement.EveryStepAgrees | src/persistence/catalog_repository.py:37-63 | from agreeing states every operation succeeds on both repositories or raises the same error on both, failures change nothing, and only catalog items change |
| CatalogRefinement.EveryRunAgrees | src/persistence/catalog_repository.py:87-179 | the same, call by call, for every sequence of operations |
| CatalogRefinement.SeedingAgrees | src/persistence/catalog_repository.py:110-124 | seeding both from one file makes them agree, whatever an interrupted seed left in the table |
| CatalogRefinement.UnreadableSeedDiffers | src/persistence/catalog_repository.py:42-44 | the replies to `ensure_seeded` agree if and only if something is cached or the file is readable; otherwise one raises and the other leaves the table as it is |
| CatalogCrash.OldOrPrefixOfNew | src/persistence/catalog_repository.py:139-160 | wherever an operation stops, the agent items are what is left of the old catalog or the first j new entries, never a mix |
| CatalogCrash.ReadersSeeAValidCatalogOrNone | src/persistence/catalog_repository.py:87-104 | over every run of crashing or finished operations a listing raises exactly when no agent item exists and otherwise returns a valid catalog |
| CatalogCrash.SeedingSurvivesCrashes | src/persistence/catalog_repository.py:110-160 | a first seed interrupted any number of times, then finished, reaches the same table as an uninterrupted one |
| CatalogCrash.SeedsAgainUnlessMeta | src/persistence/catalog_repository.py:112-114 | a start writes nothing if and only if META exists |
| CatalogCrash.EmptiedBehindTheDeletes | src/persistence/catalog_repository.py:139-152 | for every writing operation: a crash leaves a non-empty catalog empty if and only if it comes right behind the last delete |
| CatalogCrash.CrashedRewriteStaysEmpty | src/persistence/catalog_repository.py:112-114 | a seeded catalog of which any rewrite stops behind the deletes stays empty under every operation but a full replacement |
| CatalogCrash.OtherCrashesLeaveACatalog | src/persistence/catalog_repository.py:139-160 | stopped at any other write, the table holds a valid catalog, namely what a listing returns |
| CatalogSeeding.TasksFollowTheRepository | src/persistence/catalog_repository.py:110-123 | a task of the interleaving plans what a lone call of `ensure_seeded` plans |
| CatalogSeeding.EveryMoveKeepsInv | src/persistence/catalog_repository.py:126-160 | every table operation and every crash of any task keeps: each writer has each stale key still ahead of it, and META, once there, counts the file and means no stale key |
| CatalogSeeding.DeletesAreOwed | src/persistence/catalog_repository.py:139-152 | at every instant of every run, a file agent that was put and is not stored was deleted by a task that still owes it, or crashed owing it |
| CatalogSeeding.EverySeedingRun | main.py:78-80 | any number of tasks, any interleaving, any crashes: at the end META counts the file and only its agents are stored; one is missing if and only if a delete of it had no later put, and the deleter crashed owing it |
| CatalogSeeding.ConcurrentSeedsConverge | main.py:78-80 | if no task crashes owing an agent, exactly the file's agents are stored at the end |
| CatalogSeeding.ConcurrentStartsConverge | src/persistence/catalog_repository.py:110-160 | without crashes, all tasks finishing is enough |
| CatalogSeeding.OwingCrashLosesTheAgent | src/persistence/catalog_repository.py:139-152 | a run in which a crash that owes an agent leaves a seeded but empty catalog |
| CatalogReaders.ReadersSeeAValidCatalogOrNone | src/persistence/catalog_repository.py:87-160 | while any number of tasks seed over the leftovers of one catalog, in any interleaving and with any crashes, a listing raises exactly when no agent item exists and otherwise returns a valid catalog |
| CatalogCli.CmdAdd | scripts/manage_virtual_agents.py:46-74 | the table and the exit follow the add command's step |
| CatalogCli.CmdUpdate | scripts/manage_virtual_agents.py:77-116 | the table and the exit follow the update command's step |
| CatalogCli.RenameAgent | scripts/manage_virtual_agents.py:85-98 | the loop changes exactly the entries with the id and says whether there was one |
| CatalogCli.CmdRemove | scripts/manage_virtual_agents.py:119-132 | the table and the exit follow the remove command's step, with its text search for "not found" |
| CatalogCli.CmdSetDefault | scripts/manage_virtual_agents.py:135-136 | set-default is the update to default of one agent |
| CatalogCli.AddFailsOnlyOnBlanks | scripts/manage_virtual_agents.py:50-69 | adding a new id to a valid catalog can only fail on a blank id or name; with the flag it is the only default |
| CatalogCli.UpdateFailsOnlyOnBlankName | scripts/manage_virtual_agents.py:84-111 | updating keeps ids and order and can only fail on a blank new name; with the flag exactly that agent is default |
| CatalogCli.CommandKeepsCatalog | scripts/manage_virtual_agents.py:46-136 | every command keeps the stored catalog valid, and a failing one changes nothing |
| CatalogCli.EveryRunKeepsCatalog | scripts/manage_virtual_agents.py:46-136 | so does every sequence of commands, and the catalog stays listable |
| CatalogCli.NewDefaultIsTheOnlyOne | scripts/manage_virtual_agents.py:59-64 | after a successful add, update or set-default with the default flag, that agent is the only default in the table |
| CatalogCli.SetDefaultMarksOne | scripts/manage_virtual_agents.py:102-112 | setting a known default succeeds, keeps ids and names, and marks that agent alone |
| CatalogCli.LastSetDefaultWins | scripts/manage_virtual_agents.py:135-136 | of two set-default calls the last decides, and repeating one changes nothing |
| CatalogCli.EmptyCatalogIsNeverPrinted | scripts/manage_virtual_agents.py:127-132 | the branch that prints EMPTY_CATALOG is never reached |
| CatalogCli.LastAgentStays | scripts/manage_virtual_agents.py:124-126 | removing the last agent fails with the validation message and changes nothing |
| CatalogLaws.AddKeepsTheOthers | scripts/manage_virtual_agents.py:46-74 | an add stores the new agent as given and keeps every other, which loses its flag exactly if the new one is the default; each failure has its own message |
| CatalogLaws.UpdateChangesTheAgent | scripts/manage_virtual_agents.py:77-116 | an update or set-default stores the new name and flag, where given, and keeps every other agent; each failure has its own message |
| CatalogLaws.RemoveCommandDropsTheAgent | scripts/manage_virtual_agents.py:119-132 | a remove drops that agent and keeps every other; an unknown and the last agent are refused, each with its own message |
| CatalogCli.CommandsCannotMendACrash | scripts/manage_virtual_agents.py:46-136 | after any crashed rewrite the catalog is stored no longer if and only if the crash came right behind the deletes, and then every command fails and changes nothing |
| Store.PlaceThenSlot | src/persistence/token_storage.py:13-18 | a slot can be read back from its key, for every org id, agent id and stamp |
| Store.PlaceIsInjective | src/persistence/token_storage.py:13-18 | no two places of the six stores share a key, over all strings |
| Store.KeysAsWritten | src/persistence/token_storage.py:13-18 | the partition and sort keys of every slot, as written |
| Store.PutRefinesUpdate | src/persistence/client.py:38-39 | a put changes one slot of one logical store and nothing else |
| Store.DeleteRefinesRemoval | src/persistence/client.py:41-42 | a delete removes one slot of one logical store and nothing else |
| Store.AgentQueryIsExact | src/persistence/catalog_repository.py:135-138 | the `AGENT#` query returns exactly the catalog agents |
| Store.AuditQueryIsExact | src/persistence/audit_repository.py:94-102 | the `AUDIT#` query of an org returns exactly that org's events |
| SingleTable.OwnersAreApart | src/persistence/token_storage.py:13-18 | the catalog, the integration and every org are owners of their own |
| SingleTable.CallStaysAtHome | src/persistence/catalog_repository.py:126-160 | every write of every repository call lands in the caller's own store |
| SingleTable.EachStoreIsAlone | src/persistence/token_storage.py:101-148 | over every run of calls to all repositories each owner's store ends up as if only its own calls had been made |
| Interleaving.EveryInterleavingIsAlone | src/persistence/token_storage.py:101-148 | at every instant of every write-by-write interleaving of calls of different owners, with calls stopping anywhere, each owner's store is that of its own writes alone |
| Interleaving.CompleteCallsInterleaveFreely | src/persistence/token_storage.py:101-148 | where no call of an owner stopped short, its store is that of its calls made whole and alone |
| Service.Execute | src/persistence/client.py:35-48 | every repository call performs exactly its planned writes, in order |
| SingleTable.OrgReadsAreIsolated | src/persistence/token_storage.py:116-128 | an org's credentials, profile and events depend on that org's calls only |
| SingleTable.EveryStoredDetailIsRedacted | src/persistence/audit_repository.py:72-84 | over every run from an empty table each stored event sits under its own org and timestamp with a redacted detail |
| SingleTable.EventsStayUntilTheyExpire | src/persistence/audit_repository.py:72-84 | over every run an event stays as recorded unless another is recorded under the same stamp or it expires |
| TokenStorage.SealedTokensOpen | src/persistence/token_storage.py:21-46 | stored tokens come back unchanged under the same key and not at all under another |
| TokenStorage.WhatDoesNotOpen | src/persistence/token_storage.py:31-46 | an item of another version does not open, and tokens without a readable time raise |
| TokenStorage.UpsertAuthorized | src/persistence/org_repository.py:24-36 | replaces the org's profile by an authorized one and changes nothing else |
| TokenStorage.MarkDeauthorized | src/persistence/org_repository.py:39-50 | replaces the org's profile by a deauthorized one and changes nothing else |
| TokenStorage.ProfileWritesForget | src/persistence/org_repository.py:24-50 | each profile write sets its own time and keeps the other one exactly if there was none |
| TokenStorage.DynamoDBTokenStorage.GetIntegrationTokens | src/persistence/token_storage.py:84-99 | absent or undecryptable tokens read as none |
| TokenStorage.DynamoDBTokenStorage.SetIntegrationTokens | src/persistence/token_storage.py:101-114 | seals the tokens in the integration slot and changes nothing else |
| Service.IntegrationTokensAfter | src/persistence/token_storage.py:84-114 | after any run of calls the integration tokens read as those set last; as none under another key or when none were set |
| TokenStorage.DynamoDBTokenStorage.GetServiceAppTokens | src/persistence/token_storage.py:116-128 | absent tokens read as none; undecryptable ones raise |
| TokenStorage.DynamoDBTokenStorage.SetServiceAppTokens | src/persistence/token_storage.py:130-144 | credentials first, then the authorized profile, and nothing else |
| TokenStorage.DynamoDBTokenStorage.DeleteServiceAppTokens | src/persistence/token_storage.py:146-148 | credentials removed first, then the deauthorized profile, and nothing else |
| Service.OrgTokensAfter | src/persistence/token_storage.py:116-148 | after any run of calls an org's tokens read as those set last, or none after a delete; another key raises |
| TokenStorage.DynamoDBTokenStorage.ListRegisteredOrgs | src/persistence/token_storage.py:150-165 | for every scan order and every split into pages, terminates with the strictly ascending list of exactly the orgs that hold credentials |
| TokenStorage.OrgsFound | src/persistence/token_storage.py:158-161 | filtering keys by sort key and prefix finds each org with credentials exactly once |
| Authorization.EveryMoveKeepsInv | src/persistence/token_storage.py:130-148 | every write, start or crash of any org's operation, and any write elsewhere, keeps the authorization invariant |
| Authorization.ReadsAtEveryInstant | src/persistence/token_storage.py:116-148 | at every instant, in flight or crashed, an org's tokens read as the outcome of the last operation whose first write is done, and its profile follows the last completed one |
| Authorization.CredentialsMatchTheProfile | src/persistence/token_storage.py:116-148 | at every instant a settled org has credentials exactly if its profile says authorized, and reading gives the tokens last set, or none after a delete |
| Authorization.TornOrgsReadTheCrashedOperation | src/persistence/token_storage.py:130-148 | a torn org reads what the crashed operation was to leave, and disagrees with its profile if and only if that operation was to change the authorization |
| Authorization.RerunRepairs | src/persistence/token_storage.py:130-148 | running an operation again after it stopped anywhere gives the table of one full run |
| Authorization.TornExactlyOnChange | src/persistence/token_storage.py:144-148 | a crash between the two writes breaks the match exactly when the operation changes whether the org is authorized |
| IsoTime.IsoKeepsTheOrder | src/persistence/audit_repository.py:68-70 | different UTC instants keep their order as text, with and without microseconds, whatever is appended |
| IsoTime.LocalTimeAsWritten | src/persistence/audit_repository.py:68-70 | the text of a time, mark by mark and field by field |
| IsoTime.OffsetAsWritten | src/persistence/token_storage.py:27 | the text of an offset: sign, hours and minutes, the rest only where needed |
| IsoTime.EarlierMeansBeforeInTime | src/persistence/audit_repository.py:68-70 | over the calendar, with leap years, the order of the fields is the order in time |
| IsoTime.SameInstantFurtherEast | src/persistence/audit_repository.py:103-104 | a clock one hour on in an offset one hour further east shows the same instant |
| IsoTime.ParseUndoesIso | src/persistence/token_storage.py:27-38 | reading a written timestamp gives it back, with its offset or without one |
| Redaction.MatchIsLongest | src/persistence/audit_repository.py:16-19 | no prefix longer than the scanned match is in the pattern's language |
| Redaction.FirstMatchIsReplaced | src/persistence/audit_repository.py:37 | text before the first match is kept, the match replaced, the rest redacted |
| Redaction.CleanTextIsKept | src/persistence/audit_repository.py:37 | a text without matches is returned unchanged |
| Redaction.TokenWordsAreReplaced | src/persistence/audit_repository.py:16-19 | "access_token" and "refresh_token" are replaced in any case, stated by characters |
| Redaction.BearerValuesAreReplaced | src/persistence/audit_repository.py:16-19 | "bearer" in any case, spaces and the whole value behind them are replaced together |
| Redaction.OnlyTheWordsMatch | src/persistence/audit_repository.py:16-19 | nothing but these three words starts a match |
| Redaction.RedactIsClean | src/persistence/audit_repository.py:37 | replacing creates no match anywhere, also across segment boundaries |
| Redaction.OnlyTheWordIsReplaced | src/persistence/audit_repository.py:16-19 | of `access_token` or `refresh_token` and a value only the word is replaced; the value survives whole if and only if it has no match |
| Redaction.SanitizedIsClean | src/persistence/audit_repository.py:33-38 | a sanitized detail contains no match of the pattern and respects the length limit |
| Redaction.SanitizedIsCutAtTheLimit | src/persistence/audit_repository.py:33-38 | a sanitized detail is the redacted one cut to the limit, from the end for a negative limit |
| Redaction.SanitizingIsStable | src/persistence/audit_repository.py:33-38 | sanitizing again changes nothing if and only if the length limit is positive |
| Audit.AuditRepository.RecordEvent | src/persistence/audit_repository.py:59-84 | raises and writes nothing when the expiry leaves the calendar; else puts one event with a sanitized detail and its expiry under its org and stamp, and nothing else |
| Audit.EventAsRecorded | src/persistence/audit_repository.py:68-84 | the key and every field of a recorded event |
| Audit.EventsExpireInOrder | src/persistence/audit_repository.py:68-71 | events are kept for the days of the setting, to the second, later ones do not expire first, and the call raises exactly outside the years 1 to 9999 |
| Audit.AuditRepository.ListEvents | src/persistence/audit_repository.py:86-116 | the newest `limit` events, filtered afterwards |
| Audit.AuditRepository.FilterSince | src/persistence/audit_repository.py:103-105 | keeps exactly the events not older than the bound, in order |
| Audit.KeyOrderIsTimeOrder | src/persistence/audit_repository.py:68-79 | ascending stored keys never go back in time |
| Audit.QueryIsNewestFirst | src/persistence/audit_repository.py:94-102 | the descending query returns the org's events in descending time order |
| Audit.ListedEventsAreStored | src/persistence/audit_repository.py:86-116 | what is listed is stored for that org, and without limit and bound everything stored is listed |
| Audit.LimitCommutesWithSince | src/persistence/audit_repository.py:100-105 | limiting before filtering equals filtering before limiting |
| Audit.ListedEventsAreTheNewest | src/persistence/audit_repository.py:86-116 | an event that is new enough is missing only if `limit` others at least as new are listed |
| Audit.SinceComparesWallClocks | src/persistence/audit_repository.py:103-105 | an event is kept exactly if it is later than the bound's wall clock read as UTC, or equal to it with a zero or missing offset |
| Audit.SinceKeepsByWallClock | src/persistence/audit_repository.py:103-105 | the bound keeps an event exactly by its wall clock |
| Audit.SinceErrsByTheOffset | src/persistence/audit_repository.py:103-105 | against the instants: a bound with an offset wrongly keeps or drops exactly the events between its instant and its wall clock |
| Audit.SinceIsChronological | src/persistence/audit_repository.py:103-105 | with a UTC bound the text comparison is the comparison of instants |
| CallerStream.Reader.StartSession | src/byova/sdk_patch.py:167-196 | session start: the calls in order, with session and turn assigned between them even if a later call raises, and the turn numbered one above the session's count |
| CallerStream.Reader.HandleInput | src/byova/sdk_patch.py:211-237 | audio and key presses: the calls in order, the first-audio flag cleared after its call |
| CallerStream.Reader.HandleRequest | src/byova/sdk_patch.py:158-237 | one request: its calls up to the first that raises, and the state for the next request |
| CallerStream.Reader.ReadRequests | src/byova/sdk_patch.py:151-237 | for every request list and every fault the calls are those of the specification up to the first that raises |
| CallerStream.Reader.RequestReader | src/byova/sdk_patch.py:151-252 | the whole trace including the except and finally clauses |
| SessionProperties.ConversationIsTheLastId | src/byova/sdk_patch.py:158-161 | the conversation is the last id that was not empty |
| SessionProperties.GroupsOfBody | src/byova/sdk_patch.py:151-206 | between two pulls exactly the calls of that request are made, up to the first session end, after the verification where it is on |
| SessionProperties.UnknownRequestsAreOnlyRead | src/byova/sdk_patch.py:158-161 | a request before any conversation id is only read |
| SessionProperties.SessionStartIsAnnounced | src/byova/sdk_patch.py:163-196 | a session start registers the stream, gets the session, binds and starts the new turn, numbered one above the session's count, and then tells the handlers |
| SessionProperties.SessionEndIsAnnounced | src/byova/sdk_patch.py:197-206 | a session end tells the handlers once, right before the release, exactly if a session had started |
| SessionProperties.EverySessionIsAnnouncedOnce | src/byova/sdk_patch.py:188-196 | the handlers hear of exactly the effective session starts, in order, each with its conversation and new turn |
| SessionProperties.InputNeedsASession | src/byova/sdk_patch.py:208-230 | input before a session start is only registered |
| SessionProperties.AudioIsHandled | src/byova/sdk_patch.py:211-227 | audio cancels the timer, is counted and flagged, goes to the handlers and then to whoever waits; a missing rate is that of the settings |
| SessionProperties.KeyPressesAreHandled | src/byova/sdk_patch.py:229-237 | known key presses go to the handlers and to whoever waits |
| SessionProperties.DigitsInOrder | src/byova/sdk_patch.py:230-232 | keys are looked up in order and unknown ones dropped |
| SessionProperties.OtherRequestsAreRegistered | src/byova/sdk_patch.py:207-209 | silence cancels the timer of the turn; other events only register |
| SessionProperties.FailuresAreReported | src/byova/sdk_patch.py:239-248 | what is called after the first call that raises, by kind of error |
| SessionProperties.UnregistersOnlyWhatItRegistered | src/byova/sdk_patch.py:249-252 | only a registered stream is unregistered, and at most one |
| StreamProperties.InputsAreTheSessions | src/byova/sdk_patch.py:158-237 | exactly the audio and non-empty key presses between the first effective start and end are dispatched, in order, on the latest turn, and exactly the first audio is flagged |
| StreamProperties.FaultsOnlyCutShort | src/byova/sdk_patch.py:239-248 | whatever raises, the dispatched inputs are a prefix of those |
| StreamProperties.QuietUntilKnown | src/byova/sdk_patch.py:158-161 | before a conversation id is known nothing is called |
| StreamProperties.NothingAfterSessionEnd | src/byova/sdk_patch.py:197-206 | requests after a session end are never read and releasing the session is the last call |
| StreamProperties.UnregisteredIffOneConversation | src/byova/sdk_patch.py:249-252 | on every exit each registration is answered before the end marker if and only if all registrations are for one conversation |
| StreamProperties.UnregisteredIffStreamKeepsConversation | src/byova/sdk_patch.py:158-252 | requests whose handled ids agree up to the session end leave no registration behind, whatever raises; when nothing raises, only those |
| StreamProperties.KeepingIsWhatEveryExitNeeds | src/byova/sdk_patch.py:239-252 | a stream leaves no registration behind under every fault if and only if its handled ids agree |
| StreamProperties.ChangedStreamStaysRegistered | src/byova/sdk_patch.py:249-252 | a stream of two ids leaves the first registered when nothing raises |
| StreamProperties.SteadyStreamsAreUnregistered | src/byova/sdk_patch.py:155-163 | streams whose non-empty conversation ids are equal leave no registration behind |
| StreamProperties.EndMarkerUnlessUnregisterRaises | src/byova/sdk_patch.py:249-252 | the end marker is put, once and last, if and only if the unregistration does not raise |
| ResponseQueue.YieldedInOrder | src/byova/sdk_patch.py:141-149 | in every interleaving the generator yields in order a prefix of, and when done exactly, the responses put before the first marker |
| ResponseQueue.MarkerEndsTheGenerator | src/byova/sdk_patch.py:256-261 | once a marker is put the generator ends after a bounded number of items, and without one it never ends |
| ResponseQueue.FinishedReaderEndsTheGenerator | src/byova/sdk_patch.py:249-261 | once the reader is over: without a raising unregistration the generator is done or can go on, for a bounded number of items; with one, and no handler having closed the stream, it is not done |
| ResponseQueue.GeneratorEndsIffMarked | src/byova/sdk_patch.py:141-261 | in every fair run of reader, handlers and generator the generator ends if and only if the unregistration does not raise or a handler closes the stream, having yielded exactly the responses before the first marker |
| ResponseQueue.GeneratorMayWaitForEver | src/byova/sdk_patch.py:249-261 | a fair run whose unregistration raises and whose generator never ends |
| RateLimit.WebhookRateLimitMiddleware.Dispatch | src/common/middleware.py:34-50 | prune, then reject or append and admit; other requests pass and change nothing |
| RateLimit.BufferRefinesHistory | src/common/middleware.py:38-49 | while the clock does not go back for a client, its decisions equal those of a limiter that forgets nothing, and its buffer stays sorted and at most `limit` long |
| RateLimit.AdmittedIsTheHistory | src/common/middleware.py:38-50 | the times the middleware admits are the history of the limiter that forgets nothing |
| RateLimit.AtMostLimitInAnyWindow | src/common/middleware.py:38-50 | every closed interval of 60 seconds holds at most `limit` of the requests the middleware admitted for a client |
| RateLimit.ClientsAreIsolated | src/common/middleware.py:38-49 | a client's decisions are those it would get alone |
| RateLimit.PeersAreIsolated | src/common/middleware.py:35-49 | a request is decided as if its own peer were the only one; anything but a POST to the webhook path passes |
| RateLimit.PeerIsAdmittedBelowTheLimit | src/common/middleware.py:38-50 | a webhook request is admitted exactly if fewer than `limit` of its peer were admitted in the 60 seconds up to it |
| RateLimit.PeerStaysInBound | src/common/middleware.py:38-50 | no closed interval of 60 seconds holds more than `limit` admitted requests of a peer |
| RateLimit.ClockSetBackAdmitsTooMany | src/common/middleware.py:39-41 | a run with the clock set back in which a decision differs and 60 seconds hold three admissions under a limit of two |
| DataSources.OrgClient.UrlExists | src/byods/service.py:24-35 | true exactly if a data source with the url is visible by its url or its id |
| DataSources.OrgClient.CreateDataSource | src/byods/service.py:48-62 | rejects a visible duplicate unless the check is skipped or the url is empty |
| DataSources.OrgClient.AutoRegister | src/byods/service.py:112-134 | creates only when enabled, with a url, that is not visible yet |
| DataSources.CreateAddsOne | src/byods/service.py:48-62 | a create adds one data source behind the others, or raises exactly on a visible duplicate |
| DataSources.AutoRegisterCreatesOne | src/byods/service.py:112-134 | enabled and with an unseen url, exactly one data source is created |
| DataSources.DeleteInParts | src/byods/service.py:75-77 | a delete drops the data source with the id and keeps the others in their order |
| DataSources.RunsKeepIdsDistinct | src/byods/service.py:48-62 | over every run with fresh ids the records keep distinct ids, as the methods require |
| DataSources.NoUrlTwice | src/byods/service.py:48-62 | over every run of creates, auto-registrations and deletes no non-empty url is registered twice |
| DataSources.CheckWorksIfVisible | src/byods/service.py:24-62 | a checked create keeps urls unique if and only if an existing duplicate is visible, or there is none |
| DataSources.AutoRegisterIsIdempotent | src/byods/service.py:112-134 | registering an org again adds nothing |

## Left out

- CatalogRepository.DynamoDBCatalogRepository.WriteEntries: `updated_at` is not stored, because no reader uses it; the two loops are the methods `DropAgents` and `PutAgents`.
- TokenStorage.DynamoDBTokenStorage.SetServiceAppTokens: `updated_at` of the items is not stored; the profile keeps `authorized_at` and `deauthorized_at`.
- Audit.AuditRepository.RecordEvent: `timestamp()` passes through a floating-point number; the expiry is computed exactly.
- SingleTable.EventsStayUntilTheyExpire: an event may be dropped at any time after its expiry; that it is dropped eventually is up to the table service.
- Interleaving.EveryInterleavingIsAlone: calls of one owner follow each other.
- CallerStream.Reader.StartSession: the session's `turn_count` at each session start is a parameter, because the SDK keeps it.
- ResponseQueue.GeneratorEndsIffMarked: the generator's own cancellation by the client is not modelled; the cancellation of the reader is one of its faults.
- TokenStorage.DynamoDBTokenStorage.ListRegisteredOrgs: the last evaluated key is its position in the scan order; writes during a scan are not modelled.
- RateLimit.WebhookRateLimitMiddleware.Dispatch: times are real numbers, not floating-point numbers.
- Two concurrent catalog writers with different contents, and interleaved set and delete on one org: the code gives no guarantee.
- Reading and parsing the seed file: `load_catalog` enters as its result, a validated catalog or an error.
- The SDK itself (conversation store, turn manager, token exchange, webhook handling): its calls are trace events that may raise.
- Fernet, JSON and `fromisoformat` on texts this code does not write.
- FastAPI wiring, the OAuth callback pages, logging, settings, gRPC messages, deployment: plumbing without run-long properties.
