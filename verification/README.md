# Verified model of the xcov coverage engine

This project models the logic of the `xcov` coverage engine, of the fixture store in `testinfra`, and
of the settings synchroniser `sync_agent_env.py`, and proves properties of the model with Dafny 4.11.

- `UrgCache` and `UrgCalls` are the claim-and-publish protocol of the URG summary cache: any number of
  processes, any interleaving, crashes, stale-claim takeover, sweeping of stages and damage from outside.
  `FixtureStore` and `FixtureCalls` are the same kind of protocol for test fixtures. The `*Calls` modules
  say why a call fails and what it returns when nobody interferes. Hashes are symbolic: different inputs
  have different keys.
- `Exclusions` is a session with its native exclusion set, EL file, summary index and records as a
  class, and the transactions on it; setters, saves and rollbacks fail as an environment says.
- `Publish` is the all-or-nothing publication of several files, `ExclusionsExport` the merge that
  feeds it.
- `Text`, `KeySort`, `CsvText`, `CsvLines`, `CsvRows`, `CsvScan`, `CsvSafe` and the `Exclusions*`
  modules after them are the CSV parser and printer: physical lines, logical records, the strict CSV
  reader, documents, formatting, and exactly when formatting and parsing give a document back.
- `JsonString`, `JsonSpelling` and the `Toml*` modules are the in-place edit of one TOML table, and
  what its lines may look like and say. A Python string is a sequence of code points, so it may hold
  lone surrogates; file text may not.
- `Provenance` is the length-prefixed tree encoding; SHA-256 is a parameter and may be any function.
- `UrgSummary`, `ScopeClosure`, `CodeExport`, `Aggregation` are the report algorithms.
- `UrgRunner` is the race between output-draining threads and cleanup; `BoundedInput` the request
  framing.

Where the code does not do what its documentation or its shape suggests, the code is modelled and the
exact condition is proved:

- Taking over the claim of a slow but living owner admits two processes for one key, and a key can
  then be published twice (`TakeoverAdmitsBoth`, `TakeoverOfLiveClaimAdmitsTwo`,
  `TakeoverOfLiveClaimBuildsTwice`). Every exclusion property holds for keys whose live claim was never
  taken over.
- A warm read takes the digests of a report and then reads the report again to parse it. A change in
  between that keeps the row counts is returned as a hit (`TornReadIsReturned`), and so is a forged
  report with a manifest that fits it (`ForgedReportIsReturned`); nothing else is returned that no build
  gave (`ReturnedIndexWasBuilt`).
- A status query, a failing gap or a failing instance request between an exclusion change and a read,
  and `exclude.unload_all` or `exclude.csv.apply` after a read, leave a summary of old exclusions in
  place. `GuardIsExact` gives the guard of each action from every session, and a read is right exactly
  when the last change before it was made under its guard (`ReadIsRightIffLastChangeGuarded`).
- `exclude.csv.apply` records container rows without asking who owns them; one container can then have
  two records, exactly when it has another row (`CsvKeepsOwnedIffOneOwner`).
- Formatting a CSV document does not always preserve it: a scope that begins with a number sign is
  read as a comment, a line-break character other than newline is not quoted and cuts the row, a line
  field of blanks makes formatting fail, and a container file loses the names of its groups.
  `RoundTripIff` says for every parsed document exactly when it is preserved, and the `*IsLost` lemmas
  give files that are not.
- A variable name with an equals sign makes the written TOML table unreadable, and no other name does
  (`MergeIsReadBack`). Environments have no such name, but a file can, written with an escape
  (`EscapedKeyIsLost`).
- Metric totals add up the roots only, and a synthetic scope has no metrics. Nothing is counted twice,
  but what is counted below a root without the metric is missing (`ShortfallIsBelowBareRoots`,
  `RowIsWholeIff`): a filter that names a synthetic scope reports nothing (`SyntheticScopeHidesCounts`),
  and neither does a design whose instances all have a dot in their names (`ReportedIffAtTop`).
- Without a cleanup the runner copies its dictionary without the lock and can report a job id that is
  not marked submitted (`CompletionCanReportTornIdentity`); `ReportIsTornIffCopiedWhileWriting` says
  exactly when it does.

`dafny verify dfyconfig.toml` checks the whole project.

## Model

| member | source | states |
|---|---|---|
| UrgCache.ReturnedIndexWasBuilt | xcov/xcov/urg_cache.py:168-199 | whatever the interleaving file by file, crashes, takeovers, sweeping and any damage, every returned index was parsed by a build run for the caller's own identity, unless it is a hit whose entry changed between the first digest and parsing or for whose key damage had written a manifest no build wrote |
| UrgCache.TornReadIsReturned | xcov/xcov/urg_cache.py:190-199 | such a hit exists: `session.xml` changed in that window with the same row counts is returned although no build gave that index |
| UrgCache.ForgedReportIsReturned | xcov/xcov/urg_cache.py:168-199 | and so does the other kind: a report put in place with a manifest that fits it is returned by an untorn read although no build gave it |
| UrgCache.ClaimExcludes | xcov/xcov/urg_cache.py:303-345 | two different processes are between claim and release of one key only if a live claim of that key was taken over |
| UrgCache.AtMostOneBuild | xcov/xcov/urg_cache.py:346-411 | for a key without live takeover whose entry and stages nobody damaged or swept away, at most one build is ever published, and the entry is there exactly if one was |
| UrgCache.PublishedEntryIsPermanent | xcov/xcov/urg_cache.py:271-276 | the entry of such a key, once there, is never replaced or quarantined |
| UrgCache.CapacityOvershootIsBounded | xcov/xcov/urg_cache.py:243-268 | with at most C processes in flight, entries and entries in flight together never exceed the limit by more than C - 1 |
| UrgCache.TakeoverAdmitsBoth | xcov/xcov/urg_cache.py:316-329 | from every state in which a process is about to take over the claim of one between claim and release, and the entry has no good header, three or four steps of it leave both between claim and release |
| UrgCache.TakeoverOfLiveClaimAdmitsTwo | xcov/xcov/urg_cache.py:316-329 | for every identity there is an undamaged run with two processes holding the claim at once |
| UrgCache.TakeoverOfLiveClaimBuildsTwice | xcov/xcov/urg_cache.py:316-411 | from there a good entry is quarantined and its key published a second time |
| UrgCalls.FailsIffCaused | xcov/xcov/urg_cache.py:271-411 | a move ends a call in an error if and only if it had a cause: a failing call of the system, an expired wait, a report that does not parse, a full cache, an entry in the way, or one gone when quarantined |
| UrgCalls.FailureHasCause | xcov/xcov/urg_cache.py:271-411 | in every run a call that has failed made a move of its own that had such a cause |
| UrgCalls.CallAloneReturns | xcov/xcov/urg_cache.py:271-411 | from every state in which the key is unclaimed, a caller alone without failures returns: the index of an entry that is the stage of a build of its identity, and otherwise, with room, the index of its own report, which is then published; claims and all else are as before |
| UrgCalls.CallExists | xcov/xcov/urg_cache.py:271-411 | from every state and for every environment there is such a run of one caller |
| FixtureStore.CurrentNamesAWholeVersion | testinfra/xverif_test/fixtures.py:176-269 | at every point of every run the version named by `current.json` exists whole, carries the named fingerprint, and its content passed output validation and probes |
| FixtureStore.ReturnedTargetIsWhole | testinfra/xverif_test/fixtures.py:387-431 | every path handed to a caller is a whole version of the caller's fingerprint with the caller's outputs |
| FixtureStore.VersionsAreImmutable | testinfra/xverif_test/fixtures.py:254-267 | a published version never changes and never disappears |
| FixtureCalls.CurrentFollowsPublication | testinfra/xverif_test/fixtures.py:262-263 | in every run `current.json` names a version right after its publisher wrote it, and no other step moves `current.json` |
| FixtureCalls.FailsIffCaused | testinfra/xverif_test/fixtures.py:153-269 | in every run a move dooms a call if and only if it had a cause: a failing call of the system, an expired wait, a name drawn before, missing outputs, an unfit published version, or a stage or version in the way |
| FixtureCalls.FailureHasCause | testinfra/xverif_test/fixtures.py:153-269 | in every run a call that has failed made a move of its own that had such a cause |
| FixtureCalls.CallAloneReturns | testinfra/xverif_test/fixtures.py:153-269 | from every state of every run in which nobody has the claim, a caller alone without failures returns what `current.json` names for it, or a version of its own under a new name, whole and named by it |
| FixtureCalls.CallExists | testinfra/xverif_test/fixtures.py:153-269 | from every state and for every environment there is such a run of one caller |
| FixtureCalls.SecondCallerReuses | testinfra/xverif_test/fixtures.py:167-176 | a later caller with the same fingerprint and outputs gets that very version; no version is made and no name drawn |
| Exclusions.XcovSession.SummaryIndex | xcov/xcov/backend.py:2231-2240 | the index is loaded once from the EL file in place and kept |
| Exclusions.XcovSession.EnsureElReady | xcov/xcov/session.py:161-171 | a dirty session saves its exclusions under the one path and is clean, or nothing changes but the failure |
| Exclusions.XcovSession.CoverageRead | xcov/xcov/session.py:172-176 | a prepared read leaves the session as `Read` does and returns its index |
| Exclusions.XcovSession.UnloadAll | xcov/xcov/session.py:139-146 | exclusions, records and EL state are cleared, the index stays |
| Exclusions.XcovSession.ExcludeLoad | xcov/xcov/actions.py:828-849 | loading adds the union of all files, or a refused file leaves everything as before |
| Exclusions.XcovSession.ExcludeSet | xcov/xcov/actions.py:851-953 | a reference request sets every target and record and succeeds exactly when no setter fails; a failure whose rollback succeeds changes nothing |
| Exclusions.XcovSession.ResolveClaims | xcov/xcov/actions.py:955-1046 | an add succeeds exactly when rows are found, each exact container has one row and none is owned, and claims those; a remove succeeds exactly when recorded claims match and agree, and takes those |
| Exclusions.XcovSession.ExcludeContainer | xcov/xcov/actions.py:955-1095 | the exact condition of success; an add then has excluded and recorded, under its own scope as root, every instance it was expanded to, and a remove has taken away exactly the rows with that root, or that name, and their targets; on failure all is as before |
| Exclusions.AddThenRemoveInstance | xcov/xcov/actions.py:955-1095 | after the add of an instance and the remove of its scope none of its expansion is excluded or recorded |
| Exclusions.AddIsResolvableIff | xcov/xcov/actions.py:955-1046 | an add gets to the database if and only if something is asked for, all items are complete, no target is asked for in two ways, and any record of a target is the one to be written |
| Exclusions.RemoveIsResolvableIff | xcov/xcov/actions.py:955-1046 | a remove gets there if and only if a record has one of the roots or names, and records of one target agree |
| Exclusions.RefRequestMeans | xcov/xcov/actions.py:851-953 | a reference request sets or clears the references named and records each with its own reason and row, and touches nothing else |
| Exclusions.StageGapsMeans | xcov/xcov/actions.py:1097-1358 | after gaps the last one done that writes a row decides its record |
| Exclusions.XcovSession.ExportGaps | xcov/xcov/actions.py:1097-1358 | the exact condition of success and the exclusions, records and outcomes after it, FSM gaps that fail in part included; a failure leaves exclusions and records, and a failed rollback closes the session |
| Exclusions.GapsRunClean | xcov/xcov/actions.py:1097-1358 | without failing setters every gap succeeds and exactly the targets of all gaps are added |
| Exclusions.XcovSession.CsvApply | xcov/xcov/actions.py:1865-1893 | all rows are excluded and recorded or none; nothing marks the EL file dirty |
| Exclusions.XcovSession.RecordEntries | xcov/xcov/actions.py:1992-2000 | the revision moves by one for every record that is new or differs |
| Exclusions.GuardIsExact | xcov/xcov/session.py:125-174 | for every action and every session, right or stale: the next prepared read is right after it if and only if the action's guard held before it |
| Exclusions.ReadIsRightIffLastChangeGuarded | xcov/xcov/session.py:125-174 | a read after any run from a fresh session is right if and only if the last change before it was made under its guard |
| Exclusions.EveryReadIsRightIffGuarded | xcov/xcov/session.py:125-174 | every read that a run makes returns the exclusions then in force if and only if before each of them the last change was made under its guard |
| Exclusions.OrdinaryRunsReadRight | xcov/xcov/actions.py:296-308 | no run of adds, removes, EL loads and prepared reads serves a stale summary, although the EL path never changes |
| Exclusions.StaleReadsExist | xcov/xcov/session.py:139-146 | two concrete runs that do: a status query between add and read, and unloading everything |
| Exclusions.AddKeepsOwned | xcov/xcov/actions.py:955-1046 | adding unclaimed containers keeps one record per exact container, filed under its row, with its target excluded |
| Exclusions.RemoveIsExact | xcov/xcov/actions.py:1047-1095 | removing recorded containers takes away exactly those records and exactly their targets |
| Exclusions.RunsKeepOwned | xcov/xcov/actions.py:955-1095 | over every run of container and reference requests that ownership invariant holds |
| Exclusions.CsvKeepsOwnedIffOneOwner | xcov/xcov/actions.py:1992-2000 | applying CSV rows keeps the ownership invariant if and only if no container of the rows has a record under another row |
| Exclusions.RemovingARootClearsItsTargets | xcov/xcov/actions.py:1000-1095 | after any run, removing a root clears exactly the targets recorded for it, whatever the hierarchy is now |
| Exclusions.RootRemovalIsExact | xcov/xcov/actions.py:976-1095 | by the rows' own fields: the records gone are exactly the instance rows with that expansion root, and the targets gone exactly theirs |
| Exclusions.OtherRootsAreUntouched | xcov/xcov/actions.py:1000-1095 | targets of different roots are disjoint and removing one root leaves the other's excluded |
| Publish.PublishedAt | xcov/xcov/exclusions_csv.py:508-534 | publishing puts each changed document's text at its own path and touches no other path |
| Publish.Directory.StageAll | xcov/xcov/exclusions_csv.py:517-526 | exactly the changed documents are staged, each with its text, or staging failed |
| Publish.Directory.SwapAll | xcov/xcov/exclusions_csv.py:527-536 | on success everything is in place; at any failure what was done can be undone |
| Publish.UndoRestores | xcov/xcov/exclusions_csv.py:542-548 | undoing whatever the swap loop had done gives the original directory |
| Publish.Directory.PublishAll | xcov/xcov/actions.py:1695-1722 | for any number of documents and any failing write, rename or sync: all texts in place on success, nothing changed on failure |
| ExclusionsExport.Export | xcov/xcov/actions.py:1650-1691 | the merge succeeds exactly when documents and records give no exclusion two reasons; then the documents hold both, each exclusion once, and records already there change nothing |
| ExclusionsExport.UniqueIsConsistent | xcov/xcov/actions.py:1659-1664 | documents with one row an identity give no exclusion two reasons |
| Text.SplitOfJoin | xcov/xcov/exclusions_csv.py:196-196 | lines put together are split at the same places again |
| Text.JoinOfSplit | xcov/xcov/exclusions_csv.py:196-196 | splitting loses nothing and every break ends a line |
| KeySort.SortOrders | xcov/xcov/exclusions_csv.py:467-491 | sorting orders by tuple key and keeps every element |
| KeySort.SortIsStable | xcov/xcov/exclusions_csv.py:485-491 | elements of one key keep their order |
| CsvText.RowIsRead | xcov/xcov/exclusions_csv.py:247-263 | a printed row, with or without its newline, is read by the strict reader as that row alone |
| CsvLines.AdvanceQuoteState | xcov/xcov/exclusions_csv.py:233-244 | skipping doubled quotes computes the parity of quotes |
| CsvLines.LogicalEntries | xcov/xcov/exclusions_csv.py:190-230 | the loop over physical lines yields the items the recursive definition gives, with its budget and its unterminated-field error |
| CsvLines.ScanRecord | xcov/xcov/exclusions_csv.py:208-223 | a text whose breaks are all quoted, up to one that is not, is one record wherever it stands |
| CsvLines.ScanMeta | xcov/xcov/exclusions_csv.py:199-207 | a printed metadata line is read back as its key and value |
| CsvRows.RowIsScanned | xcov/xcov/exclusions_csv.py:190-223 | a safe row, printed anywhere, is one record and the scan goes on behind it |
| CsvScan.FirstFieldIsRead | xcov/xcov/exclusions_csv.py:247-263 | a record read as one row begins with its first field, bare or quoted as a whole |
| CsvSafe.NextRecord | xcov/xcov/exclusions_csv.py:196-223 | the first record starts at the first line that is neither blank nor a comment |
| CsvSafe.ReadRowIsSafe | xcov/xcov/exclusions_csv.py:190-263 | a row that is the first record read from its own printed text was safe to print |
| ExclusionsCsv.ParseDocument | xcov/xcov/exclusions_csv.py:95-187 | parsing as a loop equals the recursive definition, with every error |
| ExclusionsRows.ValidIffShaped | xcov/xcov/exclusions_csv.py:265-337 | a row is accepted if and only if its fields, by name, have one of the shapes in the tables of metrics and target kinds, with a positive numeral as line |
| ExclusionsRows.CanonicalIffNumeral | xcov/xcov/exclusions_csv.py:297-302 | a line is canonical if and only if it is the decimal numeral of a positive number |
| ExclusionsRows.LineSortsByNumber | xcov/xcov/exclusions_csv.py:485-488 | and it is sorted by that number |
| ExclusionsRows.KeyFollowsFields | xcov/xcov/exclusions_csv.py:468-491 | the sort key is the named fields in the order given, a line counting as its number |
| ExclusionsFormat.FormatDocument | xcov/xcov/exclusions_csv.py:461-493 | formatting as a loop gives the printed document in order, and fails on a line field of blanks |
| ExclusionsReparse.PrintedIsParsed | xcov/xcov/exclusions_csv.py:95-187 | a well-formed printable document of any kind, printed, is parsed back to the same groups and rows |
| ExclusionsRoundTrip.ParsedIsWellFormed | xcov/xcov/exclusions_csv.py:95-187 | every parsed document has valid rows, distinct groups, no duplicate exclusion and keeps the budgets |
| ExclusionsRoundTrip.SortedMeans | xcov/xcov/exclusions_csv.py:467-491 | the ordered document has its groups in order and each group's rows in order, the same rows as before |
| ExclusionsRoundTrip.FormattedIsParsed | xcov/xcov/exclusions_csv.py:461-493 | for every parsed printable document the formatted text parses to the document in order, and formatting that changes nothing |
| ExclusionsExact.RoundTripIff | xcov/xcov/exclusions_csv.py:461-493 | for every parsed document: the formatted text parses to the document in order if and only if every row is safe and sortable, no container group has a name, and the text is within the byte budget |
| ExclusionsLoss.CommentedRowIsLost | xcov/xcov/exclusions_csv.py:199-207 | a row whose first field begins with a number sign is skipped when read |
| ExclusionsLoss.UnsafeRowIsLost | xcov/xcov/exclusions_csv.py:461-493 | every valid row that is not safe can be read from a file with its fields in quotes, and formatting that file does not preserve it |
| ExclusionsLoss.UnsortableIsLost | xcov/xcov/exclusions_csv.py:485-491 | every valid row with a blank but not empty line field can be read from a file, and formatting that file fails |
| ExclusionsLoss.HashedScopeIsLost | xcov/xcov/exclusions_csv.py:199-207 | a concrete file with the scope `"#top"` is read and not preserved |
| ExclusionsLoss.BrokenReasonIsLost | xcov/xcov/exclusions_csv.py:196-223 | a concrete file with U+0085 in a reason is read and not preserved |
| ExclusionsLoss.BlankLineIsLost | xcov/xcov/exclusions_csv.py:485-491 | a concrete file with a toggle row whose line is a blank is read, and formatting it fails |
| ExclusionsLoss.NamedContainerGroupIsLost | xcov/xcov/exclusions_csv.py:481-484 | a container file with a named group parses and is not preserved |
| JsonString.QuotedRoundTrip | sync_agent_env.py:81-86 | a string survives writing and reading if and only if no high surrogate stands before a low one |
| JsonString.DecodeOfEncode | sync_agent_env.py:152-165 | an encoded string is decoded to itself whatever follows its closing quote |
| JsonSpelling.ReadIffSpelled | sync_agent_env.py:152-165 | text is read as a value if and only if it spells it, character by character, with every escape and hexadecimal digits in either case, up to a closing quote |
| TomlTable.TableIsFound | sync_agent_env.py:96-112 | the table is found exactly when its header is there once, and it ends at the next header |
| TomlTable.FindExplicitTable | sync_agent_env.py:96-112 | the two loops compute that, with the duplicate error |
| TomlTable.StripCommentSuffix | sync_agent_env.py:115-130 | the flag loop cuts at the first number sign outside a string |
| TomlTable.ParseSetTable | sync_agent_env.py:168-198 | the loop over lines enters every binding or gives the first line's error |
| TomlReading.BareKeyIsItself | sync_agent_env.py:147-148 | an unquoted key is read as its own characters if they are letters, digits, underscores and hyphens, and not at all otherwise |
| TomlReading.KeyIffMeans | sync_agent_env.py:133-149 | a key text is read as exactly what its bare or quoted form means, with blanks around it |
| TomlReading.ValueIffLiteral | sync_agent_env.py:152-165 | a value is read exactly from a literal with blanks in front and at most a comment behind |
| TomlReading.EntryIffBinds | sync_agent_env.py:176-197 | a line is read as a binding if and only if it is a key without an equals sign, an equals sign and a literal, with blanks and a comment where they may stand |
| TomlReading.NothingIffTrailing | sync_agent_env.py:176-186 | a line is passed over if and only if it is blank or a comment |
| TomlReading.CurrentIffSays | sync_agent_env.py:168-198 | a file's table is read as a map if and only if each of its lines says nothing or binds a key, no key is bound twice, and the map is what they bind |
| TomlReading.BareFileIsRead | sync_agent_env.py:168-198 | a file with the one line `name = "text"` is read as that name and that text |
| TomlTable.SortedKeysAreTheKeys | sync_agent_env.py:89-93 | the keys are rendered once each, in code-point order |
| TomlEntry.EntryIsRead | sync_agent_env.py:133-165 | a rendered entry is read as its binding, or as a key error if the key has an equals sign |
| TomlLayout.LayoutIsRead | sync_agent_env.py:168-198 | a table rendered between other lines is found there and read as the rendered map, unless a key has an equals sign |
| TomlSync.MergeIsReadBack | sync_agent_env.py:201-233 | for every readable file and environment, reading the merged file gives the merged map if and only if no name has an equals sign, and fails otherwise |
| TomlLoss.EscapedKeyIsLost | sync_agent_env.py:187-197 | a file with the key `"a\u003db"` is read, and whatever is merged into it the result cannot be read |
| TomlSync.SecondMergeIsIdle | sync_agent_env.py:201-233 | a second merge of the same environment leaves the text as it is and counts no change |
| TomlSync.OtherLinesStay | sync_agent_env.py:226-231 | lines before and after the replaced table stay as they are |
| TomlSync.TextStaysInFront | sync_agent_env.py:220-225 | an appended table has the old text in front with at most two newlines between |
| TomlSync.RenderSetTable | sync_agent_env.py:89-93 | the rendering loop writes header and sorted entries |
| TomlSync.SettingsFile.SyncCodex | sync_agent_env.py:201-233 | the method writes the merged text, or nothing on an error or a dry run, and reports changed and added names |
| Provenance.EntryIsPrefixFree | xcov/xcov/provenance.py:54-68 | an encoded entry determines itself and what follows it |
| Provenance.EncodeIsInjective | xcov/xcov/provenance.py:54-68 | equal streams are streams of equal entry sequences |
| Provenance.OrderIsCanonical | xcov/xcov/provenance.py:146-149 | one set of entries has one sorted sequence, so scan order does not show |
| Provenance.BelowReportsOnce | xcov/xcov/provenance.py:99-137 | the recursive definition reports every path once |
| Provenance.ScanTree | xcov/xcov/provenance.py:99-137 | the worklist finds the entries, counts and sizes of the recursive definition over the tree |
| Provenance.WholeIsCounted | xcov/xcov/provenance.py:99-137 | the counters are the numbers of file, directory and link entries, and the bytes those of the files |
| Provenance.ResourceIdentity | xcov/xcov/provenance.py:71-158 | the report has the recursive counts and the canonical stream, and each error its cause |
| Provenance.FileIsNoDirectory | xcov/xcov/provenance.py:71-158 | a file and a directory never have the same stream, whatever the hash |
| Provenance.StreamShowsResource | xcov/xcov/provenance.py:71-158 | whatever the hash, two resources have equal streams if and only if they have the same paths and at each path the same kind, size and digest |
| Provenance.StreamIdentifiesResource | xcov/xcov/provenance.py:71-158 | where the hash has no collision between the two at any one path, two resources have equal streams if and only if they are the same tree |
| UrgSummary.ParseXml | xcov/xcov/urg_summary.py:177-255 | the event loop with its stack, its unclosed-scope and no-instance errors |
| UrgSummary.ParseComputesRows | xcov/xcov/urg_summary.py:313-403 | for every well-nested stream parsing succeeds exactly for named, supported, non-repeating scopes, and gives each instance its dot-joined name, its parent and the public metrics directly inside it |
| UrgSummary.DirectMetricsAre | xcov/xcov/urg_summary.py:313-395 | a scope has the metrics of the elements directly in it, the last one of a name deciding |
| UrgSummary.PublicMetricsAre | xcov/xcov/urg_summary.py:398-403 | the public metrics are those of six URG names, each under its own public name |
| UrgSummary.DocumentIsParented | xcov/xcov/urg_summary.py:313-366 | the rows of a document form a forest |
| UrgSummary.BuildChildren | xcov/xcov/urg_summary.py:177-255 | the child lists are the sorted children of each row |
| UrgSummary.PreorderIsSubtree | xcov/xcov/urg_summary.py:72-89 | the preorder of an instance lists everything whose chain of parents reaches it, each once and nothing else |
| UrgSummary.PreorderIsOrdered | xcov/xcov/urg_summary.py:72-89 | in that preorder a node stands before what is below it, and what is below one child before what is below a child with a later name |
| UrgSummary.PreorderIsUnique | xcov/xcov/urg_summary.py:72-89 | at most one list of the same instances has that order |
| UrgSummary.ExpandXmlInstances | xcov/xcov/urg_summary.py:72-89 | the worklist terminates and gives that preorder |
| UrgSummary.SubtreeIsEnclosed | xcov/xcov/urg_summary.py:313-395 | an instance's subtree by parents is the instance and exactly what the document encloses in it |
| UrgSummary.ExpandDocument | xcov/xcov/urg_summary.py:72-89 | parsing, building child lists and expanding together: for every document that parses, an instance's expansion is it and exactly the instances enclosed in it, each once, in preorder with siblings by name |
| ScopeClosure.AddSyntheticScopes | xcov/xcov/urg_summary.py:290-310 | the added rows are exactly the dotted-prefix closure, with derived parent, depth and leaf |
| ScopeClosure.ClosureIsLeast | xcov/xcov/urg_summary.py:290-310 | that closure is the least prefix-closed superset of the names |
| ScopeClosure.CanonicalizeScopes | xcov/xcov/coverage_contract.py:330-483 | the validator accepts exactly unique rows with derived fields and present parents |
| ScopeClosure.RowPassesIffDerived | xcov/xcov/coverage_contract.py:375-440 | a row passes by itself if and only if its name, parent and depth are the last component, the others joined, and their number, and none of the names is empty |
| ScopeClosure.ClosureIsAcceptedIffComponentwise | xcov/xcov/coverage_contract.py:330-483 | it accepts the closure's rows, in any order, if and only if no name has an empty component |
| CodeExport.SortByLineIsStable | xcov/xcov/code_export.py:507-507 | the constructs are ordered by line and rows of one line keep their order |
| CodeExport.AssignGaps | xcov/xcov/code_export.py:508-533 | every gap gets the first construct in range with room, or assignment stops at a gap without one |
| CodeExport.SettledIffConsistent | xcov/xcov/code_export.py:508-548 | all constructs end full or empty if and only if the gaps of every line number a prefix sum of its missing counts |
| CodeExport.OwnedMeans | xcov/xcov/code_export.py:508-533 | the positions a construct owns are the gaps assigned to it, in report order |
| CodeExport.LineGroups | xcov/xcov/code_export.py:487-548 | the export succeeds exactly on consistent input, which is exactly when groups with these properties exist; its groups are constructs of the table in order, each full, every gap stands in exactly one group, which covers it, positions increase, earlier constructs of a line take earlier gaps and none with something missing is passed over |
| CodeExport.ExportedIsConsistent | xcov/xcov/code_export.py:487-548 | wherever groups with those properties exist the report and the summary agree |
| Aggregation.MetricsFromUrg | xcov/xcov/actions.py:2227-2268 | the loop gives, for every wanted metric some root has, the sum over the roots |
| Aggregation.RootTotalsAreSelfTotals | xcov/xcov/actions.py:2227-2268 | where no root lies below another scope, true subtree totals at the roots add up to every scope's own counts once |
| Aggregation.RootsApartMeansClosedBelow | xcov/xcov/actions.py:2233-2237 | no root lies below another scope if and only if below any scope parents are present |
| Aggregation.ClosedRootsApart | xcov/xcov/urg_summary.py:256-269 | the names the parser reports hold every dotted prefix, so no root lies below another scope |
| Aggregation.FilteredRoots | xcov/xcov/actions.py:452-457 | a filter on such names keeps exactly one root, the scope it names, or nothing |
| Aggregation.MetricsList | xcov/xcov/actions.py:448-458 | the rows of all scopes are the sums over the roots; under a filter they are the metrics of the scope it names, whatever lies below |
| Aggregation.ShortfallIsBelowBareRoots | xcov/xcov/actions.py:2227-2268 | the sum of every scope's own counts is the sum over the roots plus the counts below the roots that do not have the metric |
| Aggregation.RowIsWholeIff | xcov/xcov/actions.py:2227-2268 | for the names the parser reports, a metric's row is the sum of every scope's own counts if and only if nothing is counted below a root that does not have the metric |
| Aggregation.ReportedIffAtTop | xcov/xcov/urg_summary.py:290-310 | a metric of the whole design has a row if and only if an instance without a dot in its name has the metric |
| Aggregation.SyntheticScopeHidesCounts | xcov/xcov/actions.py:448-458 | for every three dotless names: with an instance `mid.leaf` in `top`, the filter `top.mid` gives no row although the instance below it has counts |
| Aggregation.GeneratedUnitIsHidden | xcov/xcov/urg_summary.py:290-310 | for instance the filter `top.generated` above the instance `top.generated.u0` |
| Aggregation.FilteredRowIsWholeIff | xcov/xcov/actions.py:448-458 | under a filter that names a scope, what is reported of a metric is the sum of the own counts kept if and only if that scope has the metric or nothing is counted there |
| Aggregation.KeptRootsApart | xcov/xcov/actions.py:448-458 | if no root lies below another scope of the whole set, none does in any filtered set |
| Aggregation.NestedRootsAreCountedTwice | xcov/xcov/actions.py:2233-2237 | the rule for roots needs those names: on any set with a root below another scope, which the parser never gives, there are counts for which the sum is too large |
| Aggregation.RootsApartIsExact | xcov/xcov/actions.py:2233-2237 | adding the roots is right for all true totals if and only if no root lies below another scope |
| UrgRunner.SectionsExclude | xcov/xcov/urg_runner.py:499-535 | in every interleaving at most one thread is in a critical section |
| UrgRunner.IdentityIsFrozen | xcov/xcov/urg_runner.py:538-581 | from the moment acceptance is cleared no step of any thread changes the job id |
| UrgRunner.KillsAndReportsAgree | xcov/xcov/urg_runner.py:583-589 | every kill of a run, its recorded kind and every report with a cleanup name the same job, one some thread read |
| UrgRunner.JobLineIsRecorded | xcov/xcov/urg_runner.py:507-518 | a thread that reads a job line with the lock free makes that job the submitted one and signals it, or changes nothing once acceptance is cleared |
| UrgRunner.CleanupKills | xcov/xcov/urg_runner.py:538-625 | from the lock on, a cleanup alone ends acceptance, kills the job known then and reports it |
| UrgRunner.InterruptLeadsToCleanup | xcov/xcov/urg_runner.py:538-581 | an exception releases a lock held and leads to the cleanup, or out of the handler |
| UrgRunner.TornIffWriting | xcov/xcov/urg_runner.py:507-518 | job id and submission mark disagree if and only if the first thread to name a job is between its two writes |
| UrgRunner.ReportIsTornIffCopiedWhileWriting | xcov/xcov/urg_runner.py:626-647 | every report of every run was copied by one of its steps, and it is torn if and only if that step was the result's unlocked copy while a thread was between its writes; a torn report carries no cleanup |
| UrgRunner.CompletionCanReportTornIdentity | xcov/xcov/urg_runner.py:626-647 | a run without cleanup can report such an identity |
| BoundedInput.Input.SkipLine | xcov/xcov/cli.py:67-70 | the inner loop reads exactly to the end of the line begun |
| BoundedInput.LinesPartition | xcov/xcov/cli.py:61-71 | the lines of a stream partition it and newlines stand at their ends only |
| BoundedInput.Input.BoundedInputLines | xcov/xcov/cli.py:61-71 | one frame per line in order: the line, or nothing if its UTF-8 length is over the budget, and the next frame is the next line |

## Left out

- Foreign calls: the native coverage database is a set of excluded objects and setter outcomes; URG, bsub, bkill, signals and real time are nondeterministic steps.
- `UrgCache`: the byte capacity is a nondeterministic refusal; the default cache directory, path canonicalisation and the owner file are not modelled; looking for all artifacts before parsing is one step with reading `tests.txt`.
- `FixtureStore`: names drawn by `mkdtemp` are assumed never to repeat and probes not to change the resources; `clean` is not modelled.
- `Exclusions`: FSM gaps may succeed in part, and targets set before an FSM failure stay, as in the code; `exclude.csv.compile` and `exclude.csv.validate` are not modelled; a request that fails is not a step of the ownership runs, and `exclude.csv.apply` is not one either: `CsvKeepsOwnedIffOneOwner` is about one such request.
- `Publish`: the undo operations themselves are assumed to succeed, and KeyboardInterrupt, which the handler does not catch, is not modelled.
- CSV: files are given as text read with universal newlines, so carriage returns, encoding errors and missing files are not modelled; line numbers in errors and rows are dropped; the CSV module's own larger field limit is subsumed by the field budget.
- TOML: carriage returns in the file, which reading turns into newlines, are not modelled; the Claude settings targets, plain JSON, are left out.
- `Provenance`: the checks that files, links and directories did not change while hashed, and the run-manifest validator, are not modelled; the digest is represented by the stream it is fed.
- `UrgSummary`: attribute elements, functional and assertion rows and the file checks around the report are not modelled; branch and condition groups of `code_export.py` and the text scraping in front of all groups are left out.
- Percentages are floats in the code and are left out; counts are integers. The projection of metric rows to the code coverage summary is not modelled.
- `UrgRunner`: process exit and startup are nondeterministic; the captured output lines are not part of the reports.
