# w-ui, modelled and proved

A Dafny model of the algorithms of the w-ui VPN panel whose correctness is not
visible from any one function, with proofs of what they are for.

`dafny verify dfyconfig.toml` checks everything. Code that works by changing
things step by step is a class or a method with loops, proved against a
specification function; the properties are lemmas about those functions, for
every input and every run.

| files | what they model |
|---|---|
| `SealFormat`, `Opener`, `Sealer`, `Archive` | the sealed backup stream: chunks, nonces, the buffering writer and reader, and the two end to end |
| `Disk`, `Restore`, `Staging` | a restore staged with its marker last and applied at the next start, when the process may die between any two operations on the disk |
| `LocalAddresses` | this machine's addresses read before a restore and put back after it |
| `ListField`, `Tunnels` | routing rules that send whole tunnels somewhere, edited in place under first-match |
| `Egress`, `Subscriptions`, `EgressService`, `EgressPanel` | outbounds, balancers and rules, renames and deletes, and the reconciling of subscriptions |
| `Pool` | the reconciler of open drivers, and its steps under the lock against deletions |
| `Guide` | the page that withholds a customer's sign-in |
| `RevealLimiter`, `Throttle` | two limiters that forget |
| `UsageTable`, `Slots`, `DotPattern` | the page's usage table, its shared parts and the script that fills them, and its QR codes |
| `Migrations`, `PanelMigrations` | migrations over starts that fail, and replaying them |
| `DnsCache`, `DnsRefresh` | the resolver's cache, and its refreshes in the background |

What the models assume: AES-GCM under one key is ideal (`SealFormat.Ideal`, in
the sense of section 8 of NIST SP 800-38D: nonces are unique, which is proved,
and then only what was sealed opens); a digest and a JSON text stand for one
value each; the clock of a limiter or a cache does not go back (an `Ordered` or
`Until` condition); one database statement or one file-system operation is
atomic; a directory is listed by name, so the dump's file comes after any file in
the dump's own place (`Restore.DumpLast`). `CreateRule` adds an enabled rule at the end whose target exists.

## What the code does otherwise than it says

Each is stated by a lemma, with the exact condition under which the promise
holds.

- A start that dies while applying a restore, and is run again, decides anew
  whether the archive is put back as a database file or as a dump. It can then
  load the dump over the file just put in place, or put back an older `.db`
  beside the dump (`Restore.HarmlessExactlyWhenSteady`). Files of other kinds
  are never affected (`Restore.CrashesThenFinish`). The addresses kept with the
  restore are lost by a start that dies after the marker or they were removed
  (`Restore.StashLostExactlyWhen`).
- Staging an archive with a member named like the marker is not all or nothing,
  also where unpacking breaks at that member, unless such members are its last
  and nothing is kept beside it; nor is it where writing the marker fails once
  its file is made, because what was staged is then cleared away in any order
  (`Staging.StagingHarmlessExactlyWhen`). Staging over a directory that is marked
  already can leave a part of the older archive to be applied. It can exactly
  when that archive changes two places, or when a part of it brings what the
  whole does not: the dump once its database file is gone, or database files
  once another engine's dump is (`Staging.OlderStagingMixesExactlyWhen`).
- The reader of a sealed archive does not remember that it refused a chunk: a
  caller that reads on can be told of the end on bytes that were not sealed.
  What it was handed is still a prefix (`Opening.RefusalIsNotRemembered`,
  `Opening.NothingForged`). A file sealed under the empty password never opens.
- Choosing a target's tunnels enables every other rule it takes a tunnel from,
  so a disabled rule comes alive for the tunnels left on it
  (`Tunnels.KeepsOthersExactlyWhenJumpsAgree`). A tunnel a rule names with
  leading zeros, which the rules' form accepts, is not taken from that rule
  (`Tunnels.SetTunnelsIsExact`). Choosing a target that does not exist fails only
  after the tunnels were taken from the others
  (`Tunnels.WalkChangesNothingExactlyWhen`).
- Renaming an outbound takes the rules with it but neither balancers' members
  nor their fallbacks, and deleting one does not look at fallbacks
  (`EgressPanel.RenameKeepsMembersExactlyWhen`,
  `EgressPanel.RenameKeepsFallbacksExactlyWhen`,
  `EgressPanel.DeleteKeepsFallbacksExactlyWhen`).
- Outbounds and balancers are to have their tags in one space, but the
  outbounds' form does not look at balancers
  (`EgressPanel.CreateKeepsOneSpaceExactlyWhen`,
  `EgressPanel.UpdateKeepsOneSpaceExactlyWhen`).
- A fetched tag with white space at its ends makes a row that the same refresh
  removes again, without a problem reported
  (`Subscriptions.RefreshOwnsExactlyFetched`).
- A pass that cannot reopen a driver drops the one that was open without
  closing it (`DriverPool.SyncLeaksExactly`); a deletion can be undone by a
  pass that had already looked at the row
  (`DriverPool.DestroyGuardsUnlessInFlight`).
- Spare addresses put back after a restore come back switched on, because an
  insert leaves a false out and the column is on by default, as the repository's
  own `CreateKeepingSwitch` says; and without what an operator put in the other
  columns, which are not carried
  (`LocalAddresses.SparesAsTheyWereExactlyWhenCarried`). For the first reason an
  outbound asked for switched off is switched on
  (`Egress.CreatedAsAskedExactlyWhenOn`).
- Emptying the resolver's cache for a changed route does not reach the answers
  that are still out: one asked for before is kept and served after
  (`DnsCache.EmptiedServesNewExactlyWhen`).
- A background refresh of the resolver's cache that takes five seconds or more,
  as its own deadline just allows, can clear the mark of a later one, and the
  same stale answer is then refreshed twice at a time
  (`DnsRefresh.OneRefreshExactlyWhenPrompt`).

## Model

| member | source | states |
|---|---|---|
| `SealFormat.NonceInjective` | internal/backup/seal.go:64-72 | no two chunks of a session, and no chunk in the middle and at the end, share a nonce |
| `Sealing.AnySession` | internal/backup/seal.go:106-143 | over any calls of `Write` and `Close` in any order, whatever the sink fails, the writer never seals two chunks under one nonce |
| `SealFormat.IdealIsHonest` | internal/backup/seal.go:64-72 | under an ideal AEAD what opens at a place, under a mark, is the chunk sealed there under that mark |
| `SealFormat.IdealIsAttainable` | internal/backup/seal.go:64-143 | for every session some AEAD is ideal: the assumption is never void |
| `Opening.NothingForged` | internal/backup/seal.go:192-238 | for any bytes after the header and any reads, also after refusals, what is handed out is a prefix of the sealed text |
| `Opening.EndsOnSealedBytesOnly` | internal/backup/seal.go:192-238 | without a refusal the end is reached on exactly the sealed bytes and then the whole text was handed out; on those nothing is refused and non-empty buffers drain it |
| `Opening.RefusalIsNotRemembered` | internal/backup/seal.go:192-238 | for every text of two chunks or more a foreign chunk after the first is refused once and reading on reaches the end: the condition above is needed |
| `Opening.SealedFileOpens` | internal/backup/seal.go:166-190 | a sealed file opens under its password and drains to its text exactly when the password is not empty |
| `Opening.WrongKeyOpensNothing` | internal/backup/seal.go:166-190 | no file opens under a key that sealed nothing |
| `Opening.Opener.NextChunk` | internal/backup/seal.go:192-224 | the reader's fields after one chunk are what `Next` says of them before, refusals included |
| `Opening.Opener.Read` | internal/backup/seal.go:226-238 | one read hands out and leaves what `ReadStep` says, for any buffer, the empty one included |
| `Opening.ReadAll` | internal/backup/seal.go:192-238 | draining through a buffer of any size gives a prefix of the text, and succeeds exactly on the sealed bytes |
| `Sealing.LastChunkCompletes` | internal/backup/seal.go:126-143 | chunks flushed unmarked, then the buffered rest marked last, are the one sealed form of the text, also at exact multiples of the chunk size |
| `Sealing.Sealer.Flush` | internal/backup/seal.go:126-135 | one chunk is sealed under the counter and the mark, the counter moves on even where the sink fails, and the counter's end is an error that writes nothing |
| `Sealing.Sealer.Write` | internal/backup/seal.go:106-124 | the text grows by exactly what was accepted, and all of it is accepted exactly when the sink failed no write of the call and the counter has room; a closed writer takes nothing |
| `Sealing.Sealer.Close` | internal/backup/seal.go:137-143 | closing fails exactly when the sink does or the text is too long, and what the sink holds is the sealed text exactly when it has turned no byte away, earlier failed writes included, but for an empty last chunk too many right after one; what the session put through the AEAD is then the `Log` that `Ideal` is about; a second call changes nothing |
| `Sealing.SealPieces` | internal/backup/seal.go:86-143 | for every way of cutting a text into writes, sealing succeeds exactly when the sink failed no write and the text is not too long, and leaves the one sealed file of the concatenation |
| `Archive.ReadBack` | internal/backup/seal.go:166-238 | a file with the session's header, whatever else it holds, gives a prefix of the text; all of it exactly when it is the sealed file and the password is not empty |
| `Archive.SealAndReadBack` | internal/backup/seal.go:86-238 | write in any pieces, open under the same password, drain through any buffer: what was written comes back |
| `DataDirectory.ClassifyInjective` | internal/backup/restore.go:156-279 | telling paths apart only by the tests the restore makes takes no two files for one |
| `Restore.CrashKeepsOrdinary` | internal/backup/restore.go:172-279 | wherever a start dies, what a finished start would make of an ordinary file is the same as before |
| `Restore.CrashesThenFinish` | internal/backup/restore.go:172-279 | any number of starts that died anywhere, then one that did not, leave every ordinary file as one uninterrupted start would, and no staging |
| `Restore.FinishedStart` | internal/backup/restore.go:172-279 | an uninterrupted start leaves each file as the archive or the live panel has it, side files of the old database gone |
| `Restore.HarmlessExactlyWhenSteady` | internal/backup/restore.go:186-262 | dying anywhere is harmless to every file, database files and the dump's place included, exactly when a second decision over what is left could not differ: no dump and no later database file beside the one put back, or no database file beside the dump, and a file in the dump's place is the dump |
| `Restore.UnsteadyHarms` | internal/backup/restore.go:186-262 | where that condition fails, one crash over an empty data directory shows it |
| `Restore.SteadyCrashesThenFinish` | internal/backup/restore.go:172-279 | where it holds, any number of starts that died anywhere, then one that did not, leave database files too as one uninterrupted start would |
| `Restore.StashLostExactlyWhen` | internal/backup/restore.go:264-279 | a start that dies loses the addresses kept with the restore exactly when the marker or they were removed by then; one that ends has handed them to its caller |
| `Staging.StagingIsAllOrNothing` | internal/backup/restore.go:93-133 | where no member a file is made for is named like the marker and writing the marker does not fail half way, a crash anywhere in staging leaves the live files alone and a marker only over every unpacked member |
| `Staging.NextStartIsAllOrNothing` | internal/backup/restore.go:93-133 | so for every safe staging the next start leaves everything as it was or applies the whole archive |
| `Staging.StagingHarmlessExactlyWhen` | internal/backup/restore.go:93-133 | every crash point, whatever a file passes through while it is written, wherever unpacking, the addresses or the marker fail and in whatever order that is cleared away, is all or nothing exactly when the archive and its ending are `Safe` |
| `Staging.ClearingMixesExactlyWhen` | internal/backup/restore.go:93-102 | clearing an older marked staging stops on a mixture exactly when the marker is still there, what is left, decided anew, changes some place, and some place is changed otherwise than by the whole |
| `Staging.OlderStagingMixesExactlyWhen` | internal/backup/restore.go:93-133 | over an older marked staging some order of removal and some crash point mix exactly when the whole would change two places, database files and the dump's included, or a part brings what the whole does not |
| `Staging.TurnsExactlyWhen` | internal/backup/restore.go:186-262 | a part does so exactly when the dump comes once the panel's database file is gone, database files come once another engine's dump is, or another file has the dump's place |
| `Staging.MarkerMemberMixes` | internal/backup/restore.go:361-417 | for every staging that is not safe some crash is taken for complete and is not |
| `Staging.DataDir.Restore` | internal/backup/restore.go:93-133 | the operations made on the disk are, in order, those the lemmas are about, the file of a member that unpacking breaks at included; names are returned exactly when everything is staged and marked |
| `Staging.DataDir.Decide` | internal/backup/restore.go:186-222 | the loop over the staged files decides as `ByFile` says |
| `Staging.DataDir.ApplyPending` | internal/backup/restore.go:172-279 | the operations made on the disk are those of `ApplyPlan`, with renames or copies as the file system allows; the archive's name and the kept addresses are returned as staged |
| `LocalAddresses.Database.ReadLocalAddresses` | internal/backup/local.go:116-175 | the record read says key for key what the live tables hold, and only the access settings when addresses are not kept |
| `LocalAddresses.Database.ApplyLocalAddresses` | internal/backup/local.go:211-292 | the statements of the plan are carried out in order up to the first that fails, which is told; kept and unknown count the tunnels gone through |
| `LocalAddresses.PlanPutsBack` | internal/backup/local.go:211-292 | all carried out, in whatever order the settings came, the tables are those `PutBack` describes |
| `LocalAddresses.AccessComesFirst` | internal/backup/local.go:216-233 | wherever a put-back stops, the panel-access settings are the live panel's as far as it came; once all are through no later failure touches them |
| `LocalAddresses.SparesNeverMix` | internal/backup/local.go:257-275 | wherever a put-back stops, a tunnel's spares are the archive's whole list or a beginning of the live one, never some of each |
| `LocalAddresses.AccessIsLive` | internal/backup/local.go:216-233 | after reading and putting back, each panel-access setting is present exactly when it was live and with that value; settings in neither list are untouched |
| `LocalAddresses.EndpointIsLive` | internal/backup/local.go:243-255 | a restored tunnel known by name has the live endpoint where that was not empty, and otherwise the archive's |
| `LocalAddresses.SparesReplaced` | internal/backup/local.go:257-275 | a restored tunnel's spares are replaced as a whole exactly when the live panel had some under its name |
| `LocalAddresses.SparesAsTheyWereExactlyWhenCarried` | internal/backup/local.go:267-275 | the live rows come back as they were, but for their tunnel's id, exactly when each was switched on and had nothing in the columns that are not carried |
| `LocalAddresses.OtherSparesStay` | internal/backup/local.go:243-276 | spares of tunnels that are not restored ones stay as they are |
| `LocalAddresses.CloneTakesArchive` | internal/backup/local.go:234-236 | with addresses not kept, tunnels, spares and nodes stay the archive's |
| `ListField.SplitJoin` | internal/egress/interfaceroutes.go:160-174 | a list of distinct storable entries is read back from its field as it was stored |
| `ListField.DecimalRoundTrip` | internal/egress/interfaceroutes.go:160-166 | an id written in decimal is read back as itself and survives being stored |
| `Tunnels.SetTunnelsIsExact` | internal/egress/interfaceroutes.go:71-158 | after setting, no other tunnel goes to the target; one asked for goes there, and is named once, exactly when no rule is left naming it in other digits; the target has at most one tunnel-only rule and other rules are untouched |
| `Tunnels.CanonicalIsNeverShadowed` | internal/egress/interfaceroutes.go:71-158 | in a table that names tunnels as the panel writes them, none is |
| `Tunnels.KeepsOthersExactlyWhenJumpsAgree` | internal/egress/interfaceroutes.go:71-158 | in any table every other tunnel stays where it was exactly when each rule the call enables, where it comes first for such a tunnel, sends it where it went |
| `Tunnels.WalkChangesNothingExactlyWhen` | internal/egress/interfaceroutes.go:100-143 | a call that fails for a target that does not exist has changed nothing exactly when no tunnel-only rule names a wanted tunnel as the panel writes it |
| `Tunnels.WalkedThenOwn` | internal/egress/interfaceroutes.go:100-143 | one walk that relieves the others, then rewriting, deleting or making the target's own rule, is the table the two results above are about |
| `Tunnels.RuleTable.SetTunnels` | internal/egress/interfaceroutes.go:71-143 | row by row, the table becomes `SetRules` of the old one; an unknown tunnel changes nothing, an unknown target is found out after the walk |
| `Tunnels.RuleTable.TunnelsByTarget` | internal/egress/interfaceroutes.go:32-54 | a tunnel is listed under a target exactly when the first match sends it there, once |
| `Egress.CreateKeeps` | internal/egress/outbounds.go:189-240 | creating an outbound keeps tags unique and every rule's target in being |
| `Egress.CreatedAsAskedExactlyWhenOn` | internal/egress/outbounds.go:201-229 | a new outbound is switched as asked exactly when it was asked for switched on |
| `Egress.UpdateKeeps` | internal/egress/outbounds.go:245-320 | a rename carries every rule that used the old tag |
| `Egress.DeleteKeeps` | internal/egress/outbounds.go:326-368 | a delete leaves no rule without its target |
| `Egress.UpdateBalancerKeeps` | internal/egress/balancers.go:222-260 | renaming a balancer carries the rules that used it |
| `Egress.DeleteBalancerKeeps` | internal/egress/balancers.go:284-301 | deleting a balancer leaves no rule without its target |
| `EgressPanel.SetTunnelsKeeps` | internal/egress/interfaceroutes.go:71-158 | choosing tunnels, also where it fails half way, leaves no rule without its target |
| `EgressPanel.RunKeepsTargets` | internal/egress/outbounds.go:189-381 | over every run of every operation on outbounds, balancers, rules and subscriptions, each rule's target exists, tags stay unique and the built-in outbounds stay switched on |
| `EgressPanel.RenameKeepsMembersExactlyWhen` | internal/egress/outbounds.go:245-320 | balancer members all still exist after a rename exactly when the tag did not change or was nobody's |
| `EgressPanel.RenameKeepsFallbacksExactlyWhen` | internal/egress/outbounds.go:245-320 | balancer fallbacks all still exist after a rename exactly when the tag did not change or was nobody's fallback |
| `EgressPanel.DeleteKeepsFallbacksExactlyWhen` | internal/egress/outbounds.go:326-368 | after a delete members still exist, and fallbacks exactly when the tag was no balancer's fallback |
| `EgressPanel.CreateKeepsOneSpaceExactlyWhen` | internal/egress/outbounds.go:655-665 | a new outbound keeps its tag apart from every balancer's, whatever its case, exactly when no balancer has it |
| `EgressPanel.UpdateKeepsOneSpaceExactlyWhen` | internal/egress/outbounds.go:245-320 | so does an edit; and a rename leaves no rule with the old tag, a balancer's of that tag neither |
| `EgressPanel.BalancersKeepOneSpace` | internal/egress/balancers.go:131-150 | creating and editing balancers keeps the tags one space always |
| `EgressService.Service.CreateOutbound` | internal/egress/outbounds.go:189-240 | the tables after are `Create` of those before, a row that cannot be marked taken back |
| `EgressService.Service.UpdateOutbound` | internal/egress/outbounds.go:245-320 | the tables after are `Update` of those before, rules renamed row by row; switching a built-in off is refused |
| `EgressService.Service.DeleteOutbound` | internal/egress/outbounds.go:326-368 | the row goes exactly when it is not built in and no rule and no balancer names it |
| `EgressService.Service.Reorder` | internal/egress/outbounds.go:371-381 | rows are numbered in the order given, those not named keep their number |
| `EgressService.Service.PrependOutbounds` | internal/egress/outboundsubs.go:361-391 | the listing walked and reordered is `Prepend` of the tables |
| `EgressService.Service.RemoveMade` | internal/egress/outboundsubs.go:236-256 | each row of the subscription with a tag not kept is deleted, or detached where it may not be |
| `EgressService.Service.RefreshNow` | internal/egress/outboundsubs.go:275-352 | the loop over the fetched links, the removal and the prepending give the tables and the problems of `Refresh` |
| `Subscriptions.RefreshSettles` | internal/egress/outboundsubs.go:275-352 | after any refresh an owned row under a fetched tag keeps its id and mark, another owned row is deleted or detached, and a row not owned stays |
| `Subscriptions.RefreshOwnsExactlyFetched` | internal/egress/outboundsubs.go:275-352 | with no problem reported the subscription owns exactly the fetched tags, one row each, exactly when none has white space at its ends |
| `Subscriptions.PrependListing` | internal/egress/outboundsubs.go:354-391 | prepending permutes the listing, keeps the others' order and never displaces the first of them |
| `DriverPool.SyncMatches` | internal/backend/pool.go:208-308 | after a pass the pool is exactly the enabled, undeleted rows, each with the driver it had untouched, one for what the row says, or the recorded failure |
| `DriverPool.SyncLeaksExactly` | internal/backend/pool.go:208-308 | a pass closes every driver it takes out of the pool but those it fails to replace |
| `DriverPool.DestroyedStaysDown` | internal/backend/pool.go:157-265 | over every interleaving with one pass at a time, a guarded deletion holds for a minute against rows created no later |
| `DriverPool.DestroyGuardsUnlessInFlight` | internal/backend/pool.go:157-265 | a deletion is guarded exactly when no pass is between looking at such a row and opening it; otherwise the next step opens it |
| `DriverPool.DriverTable.SyncNow` | internal/backend/pool.go:208-308 | the maps after the pass's loops are those of `Sync` |
| `DriverPool.DriverTable.Open` | internal/backend/pool.go:267-308 | the entry is a new driver for what the row says, the old one closed, or the recorded failure |
| `DriverPool.SyncAnswers` | internal/backend/pool.go:57-86 | after a pass each wanted row is answered with the driver left alone, a new one for what the row says, or the error of the attempt and no driver; any other interface with neither |
| `DriverPool.RunValid` | internal/backend/pool.go:57-308 | over every interleaving of passes, deletions and operators' calls an entry has a driver or an error, never both and never neither, and no driver is in two entries |
| `DriverPool.DriverTable.Get` | internal/backend/pool.go:57-62 | what is handed out is open, no other interface's, and beside no failure; there is none exactly for an interface unknown or failed |
| `DriverPool.DriverTable.ErrorFor` | internal/backend/pool.go:82-86 | an error is told exactly for an entry without a driver, and is that of its last attempt |
| `DriverPool.DriverTable.TakeInterfaceDown` | internal/backend/pool.go:187-206 | the driver is closed and the entry forgotten, and the deletion marked when it is for good |
| `Guide.ViewsAlign` | internal/devguide/guide.go:527-543 | for any catalogue two files served alike have the same guides at the same positions, filled from the same setups |
| `Guide.PageHidesSignIn` | internal/api/subpage.go:581-631 | a withholding page shows the same rows and commands, at every position, to customers who differ in the sign-in alone; the marks of commands copied by asking are the same too exactly when the mask changes the same guides' commands |
| `Guide.SecretOfMaskedRow` | internal/devguide/guide.go:361-463 | the copy of a masked row is exactly the value the mask replaced, and nothing for an empty one |
| `Guide.ShownCommand` | internal/api/subpage.go:612-625 | the command shown is always the one the masked values make |
| `Guide.RevealsWithheldCommand` | internal/api/subreveal.go:218-235 | the copy of a withheld command is that guide's real one, and nothing is handed out for a guide that withholds none |
| `Guide.BuildViews` | internal/devguide/guide.go:527-543 | the nested loops build `Views` |
| `Guide.BuildPage` | internal/api/subpage.go:611-631 | pairing the two lists by position builds the page the lemmas are about |
| `RevealLimiter.AnswersAsFullHistory` | internal/api/subreveal.go:118-141 | with a clock that does not go back, a request is granted exactly when the full history has fewer than `limit` grants in the minute before it |
| `RevealLimiter.NoMinuteOverLimit` | internal/api/subreveal.go:118-141 | no minute, wherever it starts, holds more grants to a key than its limit |
| `RevealLimiter.CompactRecent` | internal/api/subreveal.go:121-127 | filtering a slice over itself keeps exactly the recent times, in order |
| `RevealLimiter.Reveals.AllowNow` | internal/api/subreveal.go:118-141 | the map and the answer are those of `Allow`, keys dropped past the bound included |
| `Throttle.WaitIsExact` | internal/api/throttle.go:79-105 | for every count above five the 64-bit shift, wrapped or not, gives thirty seconds doubled for each further failure and fifteen minutes at most |
| `Throttle.AnswersAsHistory` | internal/api/throttle.go:60-123 | every answer is the one a throttle that never forgets would give |
| `Throttle.WaitHolds` | internal/api/throttle.go:60-123 | whatever is called in between but a success, a key is told until the end of its wait to wait at least until then |
| `Throttle.Table.FailNow` | internal/api/throttle.go:79-105 | the record and the wait are those of `Step` |
| `Throttle.Table.SucceedNow` | internal/api/throttle.go:107-111 | exactly the key's own record is dropped |
| `Throttle.Table.RetryAfter` | internal/api/throttle.go:60-76 | the wait told and the record dropped when quiet are those of `Step` |
| `Throttle.Table.SweepNow` | internal/api/throttle.go:114-123 | exactly the quiet records are dropped |
| `UsageTable.FilesOnce` | internal/api/subpage.go:1684-1700 | a file is counted once however many host entries it has |
| `UsageTable.RowsAddUp` | internal/api/subpage.go:1700-1768 | the rows together hold the bytes of every distinct file once |
| `UsageTable.BothWays` | internal/api/subpage.go:1740-1768 | the sum over rows is the sum over columns |
| `UsageTable.GrandTotalConserved` | internal/api/subpage.go:1684-1768 | in 64-bit counters the grand total equals the sum of row totals, of column totals, and of the bytes of distinct files |
| `UsageTable.BuildTable` | internal/api/subpage.go:1684-1768 | the loops build a table whose rows, columns, cells and edges are those described |
| `Slots.FillSlot` | internal/api/subpage.go:1134-1134 | a slot becomes its value as it is; a value that looks like a slot is not expanded again |
| `Slots.FillWithinExactlyWhen` | internal/api/subpage.go:1134-1134 | a slot inside a longer text is filled there, for every stub's values, exactly when no slot starts in the text before it |
| `Slots.FixedExactlyWhenNoSlot` | internal/api/subpage.go:1134-1134 | a fixed text survives every stub that has values exactly when no slot can be read in it |
| `Slots.MoldExpands` | internal/api/subpage.go:692-714 | filling a guide's part with its stub's values gives back its reference, row values and command, for any guide without slots in its fixed texts |
| `Slots.Shared.Put` | internal/api/subshared.go:44-62 | a part is shared exactly with one kept before of the same kind and data; data that cannot be written is never shared |
| `Slots.ShareGuides` | internal/api/subpage.go:692-714 | each stub of a card expands to its guide, and two guides are one part exactly when they are the same but for their values |
| `DotPattern.EncodeDecodes` | internal/api/subqr.go:88-88 | the browser reads back every run of bytes from unpadded base64 of URLs (section 5 of RFC 4648) |
| `DotPattern.DrawnIsPacked` | internal/api/subpage.go:1268-1275 | for every n by n bitmap the script draws exactly the dots that were packed |
| `DotPattern.Pack` | internal/api/subqr.go:76-88 | setting a bit for each dot row by row gives the bitmap's one pattern |
| `DotPattern.Draw` | internal/api/subpage.go:1268-1275 | the script's one loop over all dots draws the square row by row |
| `DotPattern.Patterns.Keep` | internal/api/subqr.go:90-100 | the memo stays within its bound and keeps only what working the code out again would give |
| `DotPattern.Patterns.Of` | internal/api/subqr.go:60-102 | every answer, kept or not, is the fresh one |
| `Migrations.StartFollowsPlan` | internal/database/migrate.go:52-90 | one start commits a beginning of its plan, early steps before the tables and the rest after, in list order, and is through exactly when it committed all of it |
| `Migrations.ExactlyOnce` | internal/database/migrate.go:52-90 | over any starts of any versions failing anywhere, each body commits at most once and exactly with its record, and the rows are what the committed steps made of them |
| `Migrations.ThroughIsSettled` | internal/database/migrate.go:52-90 | after a start that came through, every migration is recorded and a further start runs none |
| `Migrations.Store.RunMigrations` | internal/database/migrate.go:73-90 | the loop over the list, its applied map and its transactions are `Phase` |
| `Migrations.Store.Migrate` | internal/database/migrate.go:52-71 | one start of the store is `StartOnce` |
| `Migrations.Store.Replay` | internal/database/migrate.go:95-105 | the data migrations run again in order, each in a transaction, with nothing recorded |
| `PanelMigrations.NumbersDistinct` | internal/database/migrate.go:44-49 | the panel's own numbers are distinct, as running each once needs |
| `PanelMigrations.ReplayAgain` | internal/database/migrate.go:95-144 | replaying over any rows, after a replay that died anywhere or came through, changes nothing more |
| `PanelMigrations.LabelsCarriedOnce` | internal/database/migrate.go:132-144 | a customer with a label and no groups gets that one group, and nobody else's groups change |
| `PanelMigrations.UsageZeroedOnce` | internal/database/database.go:124-134 | usage goes to zero exactly when no start of counting is on record, and never that of a file held for another panel |
| `DnsCache.KeysTellApart` | internal/dnsproxy/dnsproxy.go:261-278 | two questions share a key exactly when they are for one type of one name, case and final dot aside |
| `DnsCache.LifetimeIs` | internal/dnsproxy/dnsproxy.go:396-414 | an answer is kept for the smallest lifetime in it, no less than five seconds and no more than five minutes |
| `DnsCache.ServedIsBounded` | internal/dnsproxy/dnsproxy.go:360-421 | in every run a reply from the cache is the last kept under its name and type, served strictly before its lifetime and the stale allowance end |
| `DnsCache.FreshIsServed` | internal/dnsproxy/dnsproxy.go:360-421 | an answer within its lifetime is served unless the cache was emptied; no look and no refresh loses it |
| `DnsCache.EmptiedServesOnlyLater` | internal/dnsproxy/dnsproxy.go:98-123 | once a changed route or configuration emptied the cache, whatever is served was kept after that |
| `DnsCache.EmptiedServesNewExactlyWhen` | internal/dnsproxy/dnsproxy.go:98-123 | and was asked for after that, for every later look, exactly when no answer asked for before is kept after |
| `DnsRefresh.OneRefreshExactlyWhenPrompt` | internal/dnsproxy/dnsproxy.go:371-392 | over every run, of two refreshes of a key the first returned itself before the second began, or its answer was replaced or dropped, exactly when refreshes return in less than five seconds |
| `DnsCache.SizeBounded` | internal/dnsproxy/dnsproxy.go:416-419 | the cache never holds more than 20001 answers |
| `DnsCache.WithId` | internal/dnsproxy/dnsproxy.go:583-589 | a reply differs from what was kept in its two id octets only, which are the asker's (section 4.1.1 of RFC 1035) |
| `DnsCache.Proxy.Cached` | internal/dnsproxy/dnsproxy.go:360-380 | the answer, the refresh and the cache after are those of a look |
| `DnsCache.Proxy.Store` | internal/dnsproxy/dnsproxy.go:394-421 | the cache after is that of keeping the answer |
| `DnsCache.Proxy.Refresh` | internal/dnsproxy/dnsproxy.go:382-392 | a refresh coming back clears its mark and keeps the answer there is |
| `DnsCache.Proxy.Query` | internal/dnsproxy/dnsproxy.go:263-283 | a query is served from the cache where that is on, under its own id, and goes on with the configuration it came under |
| `DnsCache.Proxy.Complete` | internal/dnsproxy/dnsproxy.go:284-291 | upstream's answer is passed on, and kept exactly when the cache was on as the query came, whatever it is since |

## Left out

- The cryptography itself: AES-GCM, scrypt, SHA-256 and HMAC are functions with the assumptions stated above.
- Errors of the underlying reader of a sealed archive; the writer's sink may fail at any byte and is modelled.
- tar and gzip: an archive is a sequence of named members that may break at any one. A name with a path outside the staging directory is refused before it is a member.
- Restore: a rename and the copy after it both failing, which skips that file; a staging directory that cannot be listed or removed; the report, the safety copy taken first and the check of the archive.
- Reading the dump into the database, and the stash of addresses as JSON on disk.
- Reading the live addresses: a read that fails gives an error and no record.
- The texts of the device catalogue, notes and names in other languages, the card's list of devices and files, icons, CSS and HTML escaping.
- Checking tunnels before they are set as a call of its own, and the notices that names changed.
- Rules: every check of a rule but the one on its target is a flag; criteria other than tunnels are one value.
- Outbounds: checks on anything but the tag are flags, the columns but tag, mark, origin, place and switch are one value, and white space is the ASCII kind.
- Balancers' `SetOverride`, health checks and choice of a member.
- Fetching and parsing a subscription; an error of the database within a refresh.
- Pool: `CloseAll`, `All`, `Put`, the logging of a failure once, and drivers' own work; a driver is a number, healthy or not, and an open succeeds or fails as told.
- Throttle: a count of failures that overflows the machine's integer, and the message about the wait.
- The mark of a page that asks for a sign-in and its signing.
- Usage table: showing bytes in units, and the protocol shown beside a column.
- Slots: a slot that straddles text nodes of the page; JSON as text, which stands for one value by assumption, and markup.
- Drawing a QR: the quiet margin, the scale and the image; text that is not a pattern, which the page never gives the script; making the bitmap of a text.
- Migrations: a step of bringing the tables up to date that fails half way is a start that dies there with the tables as they were; dropping an index is removing a name.
- The resolver's hosts, strategies, upstreams and sockets; an answer's lifetimes are given with it; names are lower-cased in ASCII.
- HTTP handlers, sessions, provider clients, the fleet, the reconciler, the routing applier, logging and configuration.
