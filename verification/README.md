# Meowbox: the release cutover and the agent's job machinery, modelled in Dafny

Meowbox is a server panel. Its hardest logic moves a live installation from one release to the next without losing a site, a password or a file, and runs long jobs in an agent that may lose its connection at any moment. This project models that logic and proves what it promises, for every input, every run and every place where a process may be killed.

| part | modules |
|---|---|
| legacy map and final checker | LegacyPaths, LegacyPool, RuntimeKeys, Claims, PrimaryDatabase, Positions, LegacySource, SitePlan, LegacyMap, MapCoverage, StagedWorkers, FinalInvariants, DomainCentricMigration, MigrationTheorem, RecordContents, FinalVerdict, AcceptedInstallations, MapGuard, HostnameRegistry, RefusedInstallations |
| staging table and its SQL script | SqlText, StagingTable, StagedMap |
| runtime reconciliation | RuntimeIdentities, RuntimeRender, RuntimeReconcile, OrphanedPool, RuntimeApply, RuntimeManifest |
| system-migration ledger | SystemHistory, MigrationLedger |
| secret rekeying | RekeySecrets |
| maintenance gate | QuiesceGate |
| canonical JSON | StableJson |
| agent jobs, output streams, event queue | AgentJobs, OutputStreams, EventQueue |

`Common` holds sequences, sorting by an abstract order, and `Option`.

Where the source updates state in place, the model is a class or a method with a loop, and its contract ties the new state to a step function; the theorems over whole runs are then proved about that step function. What the process cannot see in its own memory (clock, poll results, failing system calls, the point of a kill, ciphers, digests, `localeCompare`, hostname normalisation) is a parameter, so every theorem holds for every behaviour of the outside world.

## The main theorem of each part

- **Map and checker.** If the mapper reports no blocker, the data it stages passes every final check (`MigrationTheorem.MappedMeansChecked`), also when it went through the SQL script and the staging table (`StagedMap.StagedMeansChecked`). Mapper and checker are modelled separately, each as loops proved equivalent to a condition (`LegacyMap.BuildLegacyMap`, `FinalInvariants.CheckFinal`) that is in turn proved equal to one about single records and pairs of records (`AcceptedInstallations.MappedMeansAccepted`, `FinalVerdict.FinalOkMeansSound`); what the migrated records contain is stated field by field (`RecordContents.DomainRowContents`). The workers staged for a site add up to what was observed there (`StagedWorkers.StagedWorkersSplit`).
- **Runtime files.** After render, commit and cleanup every desired file holds its rendered content, every stale file is gone and nothing else changed (`RuntimeReconcile.CutoverReconciles`); which files those are is said in terms of the plan alone (`RuntimeReconcile.CutoverPartByPart`); rendering again finds nothing to do (`RuntimeReconcile.SecondRenderIsEmpty`).
- **Ledger.** Whatever sequence of runs, retries, failures and kills happened, the ledger is a prefix of successes plus at most one failure behind it (`MigrationLedger.FreshLedgerIsLawful`).
- **Secrets.** Over any number of killed runs no readable secret becomes unreadable (`RekeySecrets.SecretsAlwaysSurvive`, `RekeySecrets.PasswordsNeverLost`) and no stored ciphertext of a site changes (`RekeySecrets.CiphertextsStay`).
- **Gate.** A marker stays its owner's until a permitted release (`QuiesceGate.OwnedUntilReleased`).
- **Agent.** One invariant of the job table holds in every interleaving (`AgentJobs.RunKeepsInv`), and the safety properties follow from it; how each event ends is stated case by case (`AgentJobs.SettlementDecides` and its neighbours).

## Where the code does not do what one would expect

Each of these is proved with its exact condition.

- Site names: mapper and checker accept a site name with a dot, the renderer never does. An installation the mapper accepts passes the loader's identity checks exactly when no site name has a dot and every domain id has the renderer's form (`LoadsExactlyWithoutDots`; `DottedSiteIsRefused` gives a one-site installation that maps and is then refused). The pool file of a runtime key writes dots as underscores, so two domains share one exactly when their PHP versions are equal and their keys differ at most in dots against underscores (`PoolFilesCollide`, `ClaimTemplatePools`); for an installation that has passed those checks this never happens (`MappedPoolsAreApart`).
- Table copy: the guard in the migration's SQL asks two things the mapper does not look at. The rows of a clean map pass its row-by-row conditions exactly when no id is blank and no staged path is longer than 255 characters (`GuardAsksTwoMore`; `BlankIdIsRefused` and `LongPathIsRefused` give installations that map and are then refused).
- Host names: mapper and checker let a domain claim one name twice, the registry filled after the table copy has the lower-case name as its primary key. For a mappable installation the registry can be filled exactly when no domain repeats a spelling, letter case aside, among its own name and its aliases (`RegistryAsksNoRepeats`; `OwnAliasIsRefused` gives an installation that passes mapper and checker and breaks the key).
- Rekeying: `hasColumn` answers `false` when its probe query fails. The encryption of plain passwords is then skipped but the plain column is still dropped later, so a password that existed only there is lost. It survives exactly when the probe answered or the run died before the drop (`SshPasswordFate`, `CmsPasswordFate`).
- Rekeying: a legacy key file is renamed at the end of a run. The next run finds the same key in every listing order exactly when the key came from the environment or no copy in its directory holds a different one (`RenamedKeyIsFoundAgain`); then the next run rewrites nothing (`FinishedRunStaysFinal`).
- Cleanup: when a deferred delete itself fails, the files deleted before it are not restored; the disk is unchanged exactly when the failing delete was the first that had anything to delete (`FailedDeletesStay`).
- Renderer: a marked pool file that nobody asks for survives the cutover and every later one exactly when its domain stays without any pool, as a domain that lost PHP does (`PoolsThatStay`; `PoolWithoutPhpStays` gives such a site, host and manifest).
- Canonical JSON: an own property named `__proto__` vanishes, so two different values can share one canonical form; a value survives exactly when it has no such key at any depth (`SurvivesExactlyWhenClean`, `ProtoLeavesNoTrace`).
- Streaming: a line cut after k characters shows other text than the same line in one chunk exactly when k exceeds 4000 and the heads of the whole line and of what the tail remembered differ and are not both blank (`LongLineShowsTheCut`). When a stream closes, the rest is shown trimmed but with its colour codes, which a line before a break loses (`CloseKeepsColours`).
- Agent jobs: after its end a job sends nothing but its result, yet its status reply can still change: step and progress are those of the last report that came after the end, and they differ exactly when such a report said something else (`LateReportsChangeStatusOnly`).
- Mapper: the identity-directive pattern is written with dots as if it also covered `listen.*` and `pm.*`, but it matches only undotted names; the dotted ones are still refused, under another code (`IdentityPattern`, `ManagedKeyIsRefused`).
- Mapper: the containment check after a successful normalisation fails exactly for a root that is not absolute (`NormalizedIsContained`).
- Mapper and checker: on a site with one primary domain they agree about positions except that only the mapper asks for the primary at position 0 (`MapperAsksOneMore`).
- Ledger: a run with a failed row is accepted exactly when the contract is valid and a reviewed alias says that failure is retryable (`FailureAcceptance`); with aliases that never admit the shipped checksum it is always refused (`FailureIsRefused`).

## Model

| member | source | states |
|---|---|---|
| MigrationTheorem.MappedMeansChecked | migrations/release/mapper.ts:519-919 | tables the mapper accepts, copied through the rows it stages, pass the whole final check: counts, positions, disjoint hostnames, paths, keys, sockets, ports, database ownership, MODX; mapper and checker may use different socket limits as long as the checker's are no stricter |
| MigrationTheorem.DefaultsAreLooser | migrations/release/invariants.ts:287 | the two sides' different default socket directories meet that condition |
| MigrationTheorem.PositionsHold | migrations/release/invariants.ts:117-131 | after a clean map every site has exactly one primary domain and contiguous positions |
| MigrationTheorem.HostnamesHold | migrations/release/invariants.ts:134-161 | after a clean map no two domains claim one hostname and every stored name is usable |
| MigrationTheorem.DomainsHold | migrations/release/invariants.ts:177-213 | after a clean map every domain row is complete and sound and no runtime key is shared |
| MigrationTheorem.KeysHold | migrations/release/invariants.ts:210-212 | the runtime keys the checker claims for the migrated domains belong to one domain each |
| MigrationTheorem.DatabasesHold | migrations/release/invariants.ts:215-252 | after a clean map databases belong to a domain of their own site, purposes are known, at most one is the primary of a domain, and MODX domains are complete |
| MigrationTheorem.ModxHolds | migrations/release/invariants.ts:241-252 | every migrated MODX domain has PHP and exactly one MySQL-type primary database |
| MigrationTheorem.EverySiteKeepsADomain | migrations/release/invariants.ts:108-116 | no site is left without a domain |
| MigrationTheorem.MapperAsksOneMore | migrations/release/mapper.ts:682-695 | the mapper's test on sorted domains equals the checker's aggregate test plus a primary at position 0 |
| AcceptedInstallations.MappedMeansAccepted | migrations/release/mapper.ts:519-889 | the mapper accepts exactly the installations described row by row and pair by pair: complete and distinct rows, known presets, ports, keys and sockets that fit, names and runtime keys that lead to one domain each, references within one site, one primary at the first of gapless positions, harmless texts, mappable paths, observed PHP, enough workers, and a clear database |
| AcceptedInstallations.SiteInWords | migrations/release/mapper.ts:678-800 | the same for one site, together with the domain it takes for primary |
| AcceptedInstallations.SitesInWords | migrations/release/mapper.ts:559-593 | the site loop is silent exactly when every row is complete, identifiers are distinct, and each site has a known preset, a usable name and a valid port |
| AcceptedInstallations.DomainTableInWords | migrations/release/mapper.ts:595-624 | the domain loop is silent exactly when every row is complete and usable, identifiers are distinct, and no name or alias leads to two domains |
| AcceptedInstallations.KeysSayTheSame | migrations/release/mapper.ts:696-700 | the registry of runtime keys, with its stricter rule for primary domains, finds no collision exactly when different domains have different keys |
| FinalVerdict.FinalOkMeansSound | migrations/release/invariants.ts:107-253 | the checker reports nothing exactly for a database described without aggregates and registries: counts kept, every site with a domain and every position taken once, names and keys leading to one domain each, every column of a row sound, databases owned within their site and never two primaries of one domain |
| FinalVerdict.AggregatesMeanAllTaken | migrations/release/invariants.ts:117-131 | minimum 0, maximum n-1 and n distinct values hold exactly when the positions are 0 to n-1 and no others |
| FinalVerdict.RowSaysTheSame | migrations/release/invariants.ts:187-213 | a joined row passes exactly when preset, status, path, key, socket, version and port are as listed, the path being clean below an absolute root |
| RecordContents.DomainRowContents | migrations/release/mapper.ts:804-860 | every domain of a mapped site has a row, and it holds what the legacy tables say: preset, status and message, its own or its site's normalised path, PHP, the operator's directives with one limit, its key and its port |
| RecordContents.DatabaseRowContents | migrations/release/mapper.ts:863-888 | every database has a row: it goes to the primary domain of its site, as APP_PRIMARY exactly when the resolver chose it |
| RecordContents.SiteRowContents | migrations/release/mapper.ts:771-801 | the row of a site names its primary domain and carries no application |
| RecordContents.MigratedDomain | api/prisma/migrations/z20260731000000_domain_centric_applications/migration.sql:324-358 | the i-th migrated domain is the i-th legacy domain: identity and routing unchanged, the application as above |
| RecordContents.MigratedDatabase | api/prisma/migrations/z20260731000000_domain_centric_applications/migration.sql:380-392 | the i-th migrated database is the i-th legacy database with the primary domain of its site and the purpose of its row |
| DomainCentricMigration.CountsSurvive | api/prisma/migrations/z20260731000000_domain_centric_applications/migration.sql:324-392 | joining the source tables with the staged rows keeps the number of sites, domains and databases |
| MapGuard.GuardAsksTwoMore | api/prisma/migrations/z20260731000000_domain_centric_applications/migration.sql:83-248 | the rows of a clean map pass the guard's row-by-row conditions exactly when no id is blank and no staged path exceeds 255 characters |
| MapGuard.CleanIsReady | api/prisma/migrations/z20260731000000_domain_centric_applications/migration.sql:165-177 | of a clean path the guard's path conditions ask only the length |
| HostnameRegistry.RegistryAsksNoRepeats | api/prisma/migrations/z20260731000000_domain_centric_applications/migration.sql:574-594 | for a mappable installation the registry keeps its primary key and its count exactly when no domain repeats a spelling among its own name and its aliases; names of different domains never collide |
| HostnameRegistry.RegistryHoldsSpellings | api/prisma/migrations/z20260731000000_domain_centric_applications/migration.sql:714-719 | the inserts yield one row per domain and per alias item, with their lower-case spellings |
| HostnameRegistry.SpellingsApart | migrations/release/mapper.ts:464-483 | two domains the mapper accepts together have no spelling in common |
| RefusedInstallations.DottedSiteIsRefused | migrations/runtime-renderer.ts:28-31 | a one-site installation the mapper accepts and the loader refuses |
| RefusedInstallations.BlankIdIsRefused | api/prisma/migrations/z20260731000000_domain_centric_applications/migration.sql:85-94 | an installation with a blank site id that maps and fails the guard |
| RefusedInstallations.LongPathIsRefused | api/prisma/migrations/z20260731000000_domain_centric_applications/migration.sql:165-177 | installations with a path over 255 characters that map and fail the guard |
| RefusedInstallations.OwnAliasIsRefused | api/prisma/migrations/z20260731000000_domain_centric_applications/migration.sql:556-594 | an installation whose domain lists its own name as alias: it maps, passes the final check and breaks the registry's key |
| MapCoverage.RowsMatchSources | migrations/release/mapper.ts:771-889 | a clean map has exactly one row for each site, domain and database, and no other row |
| MapCoverage.RowKeysDistinct | migrations/release/mapper.ts:485-513 | no two staged rows share kind and source id |
| LegacyMap.BuildLegacyMap | migrations/release/mapper.ts:519-919 | there are no blockers exactly when the tables satisfy the legacy conditions and did not change while being read, and then the rows are those the theorems speak about |
| LegacyMap.ReadTables | migrations/release/mapper.ts:552-675 | reading is silent exactly when all three tables are readable and refer to existing sites and domains; the groups hold each site's own domains and databases |
| LegacyMap.PlanSites | migrations/release/mapper.ts:677-889 | planning all sites in order is silent exactly when each site passes and their runtime keys are compatible as a whole |
| SitePlan.PlanSite | migrations/release/mapper.ts:678-889 | the blockers of one site are empty exactly when it is mappable and claims no taken key; then its rows are the specified ones |
| SitePlan.PlanWithPrimary | migrations/release/mapper.ts:687-708 | with one primary domain: positions, the primary's key and the rest decide together |
| SitePlan.PlanPrimary | migrations/release/mapper.ts:696-888 | database choice, PHP observation, workers and domain paths are all checked, and every domain's key is registered |
| SitePlan.PlanDomains | migrations/release/mapper.ts:804-860 | the loop over domains reports nothing exactly when each is mappable and no key clashes, and yields one row per domain in order |
| SitePlan.PlanDomain | migrations/release/mapper.ts:804-860 | one domain is accepted exactly when it is mappable and its key is free; it has a row exactly when its path normalises |
| SitePlan.ObservePhp | migrations/release/mapper.ts:710-731 | the observed PHP flags cover the site's domains, with a blocker exactly when one has no observation |
| SitePlan.AllocateWorkers | migrations/release/mapper.ts:733-768 | a blocker exactly when the observed budget does not cover the PHP domains; otherwise every PHP domain gets its share |
| SitePlan.CheckTexts | migrations/release/mapper.ts:357-434 | the pool text and the error message of a site are checked, silent exactly when both pass |
| SitePlan.PathBlockers | migrations/release/mapper.ts:442-462 | silent exactly when the raw path maps to a normalised contained path |
| LegacySource.ReadSites | migrations/release/mapper.ts:552-593 | silent exactly when the site rows are complete, distinct by id and fit; incomplete rows are left out of the result |
| LegacySource.ReadDomains | migrations/release/mapper.ts:595-624 | silent exactly when the domain rows are complete, distinct by id, fit and claim disjoint hostnames |
| LegacySource.ReadDatabases | migrations/release/mapper.ts:626-645 | silent exactly when the database rows are complete and distinct by id |
| LegacySource.GroupDomains | migrations/release/mapper.ts:647-655 | each site's list is the sublist of its own domains in order; silent exactly when every domain's site exists |
| LegacySource.GroupDatabases | migrations/release/mapper.ts:656-675 | the same for databases, whose domain reference must lie in the same site |
| LegacySource.AddHostnameClaims | migrations/release/mapper.ts:464-483 | silent exactly when the names are usable and compatible with every claim registered before |
| LegacySource.ParseAliases | migrations/release/validation.ts:93-114 | accepts exactly the alias lists whose every entry names a usable host, and returns their normalised names |
| Claims.Register | migrations/release/mapper.ts:464-483 | conflicts are zero exactly when the claims stay compatible with all earlier ones, and the owner table reflects the union |
| Claims.NoClashMeansCompatible | migrations/release/invariants.ts:134-161 | the pass that counts clashes against first owners finds none exactly when the claims as a whole are compatible |
| Claims.CompatibleMeansFunctional | migrations/release/invariants.ts:147-160 | compatible claims give every name one owner, and for ordinary claims the converse holds too |
| Claims.CompatibleOwners | migrations/release/mapper.ts:464-483 | for compatible claims the owner table agrees with each of them |
| PrimaryDatabase.DecisiveRule | migrations/release/mapper.ts:253-287 | the answer is that of the first rule with any candidate; which rules there are, and in which order, is stated by OrderOfChoice |
| PrimaryDatabase.OrderOfChoice | migrations/release/mapper.ts:253-287 | in order and without naming the rules: a database recorded as APP_PRIMARY of the primary domain, else one whose name and user are the site name, else the one the observed configuration names, else the only MySQL-type one; at each step a single candidate is chosen and several are ambiguous, whatever else exists |
| PrimaryDatabase.ChosenIsUnique | migrations/release/mapper.ts:253-287 | a chosen database is the only candidate of some rule |
| PrimaryDatabase.ChosenIsMysql | migrations/release/mapper.ts:260-287 | a chosen database exists and is of a MySQL type |
| PrimaryDatabase.SilenceMeansNoMysql | migrations/release/mapper.ts:260-287 | no database is chosen without ambiguity exactly when the site has none of a MySQL type |
| PrimaryDatabase.ChoiceIgnoresOrder | migrations/release/mapper.ts:253-287 | the choice does not depend on the order of the databases |
| Positions.AggregatesMeanEnumeration | migrations/release/invariants.ts:117-131 | minimum 0, maximum n-1 and n distinct values hold exactly when the sorted list has value i at index i |
| LegacyPaths.NormalizedFixedPoint | migrations/release/validation.ts:18-36 | normalisation fixes exactly the clean relative paths |
| LegacyPaths.NormalizeIsClean | migrations/release/validation.ts:18-36 | whatever is accepted comes out clean |
| LegacyPaths.NormalizeIsIdempotent | migrations/release/validation.ts:18-36 | normalising a normalised path changes nothing |
| LegacyPaths.AcceptedPaths | migrations/release/validation.ts:18-36 | which paths are accepted: relative, without control characters, and every segment, with either slash as separator, is empty, a dot, or a plain name, at least one being a name |
| LegacyPaths.NormalizationKeepsTheTarget | migrations/release/validation.ts:24-35 | from every root, the normalised path leads where the path as given did |
| LegacyPaths.RefusalIsJustified | migrations/release/validation.ts:18-34 | what a refusal reports is true of the path |
| LegacyPaths.ContainedMeansBelow | migrations/release/validation.ts:39-45 | the test on the relative path holds exactly when the root is absolute and the resolved path lies strictly below it |
| LegacyPaths.NormalizedIsContained | migrations/release/validation.ts:39-45 | a normalised path is contained exactly when the root is absolute |
| RuntimeKeys.LooserSocketCheck | migrations/release/validation.ts:55-66 | a key whose socket fits in one directory fits in every directory that is no longer, for every PHP version |
| RuntimeKeys.SocketBytes | migrations/release/validation.ts:55-66 | the byte length of a joined socket path is that of its directory plus that of its name |
| RuntimeKeys.DeeperDirectory | migrations/release/validation.ts:55-66 | each further directory segment lengthens the path by its own bytes and one |
| RuntimeKeys.DefaultDirectories | migrations/release/mapper.ts:522-523 | the checker's default socket directory is shorter than the mapper's |
| LegacyPool.SafePoolCustom | migrations/release/mapper.ts:357-418 | a pool text passes exactly when it is safe and every line is acceptable; the result holds the surviving lines and the last worker limit, a refusal names the first refused line |
| LegacyPool.CollectLines | migrations/release/mapper.ts:369-417 | the line loop keeps exactly the retained lines in order, finds the last limit, and stops at the first refusal |
| LegacyPool.SurvivingDirectives | migrations/release/mapper.ts:357-418 | read with the mapper's own directive pattern, the surviving text has exactly the old directives minus worker limits and agent-owned ones |
| LegacyPool.TrimKeepsDirectives | migrations/release/mapper.ts:409-417 | trimming a whole text changes no directive |
| LegacyPool.StagedPoolDirectives | migrations/release/mapper.ts:436-440 | the staged text has exactly the surviving directives followed by one worker limit |
| LegacyPool.StagedPoolIsClean | migrations/release/mapper.ts:436-440 | the staged text has exactly one effective worker limit, equal to its share, and no agent-owned or panel-managed directive besides |
| LegacyPool.IdentityPattern | migrations/release/mapper.ts:399-410 | the identity pattern matches exactly the managed keys without a dot |
| LegacyPool.ManagedKeyIsRefused | migrations/release/mapper.ts:399-410 | every managed key other than the worker limit is refused, with the code of its form |
| LegacyPool.AllowedIsNotManaged | migrations/release/mapper.ts:306 | no allowed directive is one the panel manages |
| LegacyPool.OperatorSettingStays | migrations/release/mapper.ts:369-417 | every well-formed PHP option of an operator, in any of its four forms, stays as it is, except for the five settings the agent owns, whose lines are dropped |
| LegacyPool.AllowedInWords | migrations/release/mapper.ts:305 | the allowlist admits exactly the four forms of a PHP option with a name of 1 to 80 key characters, and nine fixed keys |
| LegacyPool.RetainedInWords | migrations/release/mapper.ts:369-412 | a line stays exactly when it is short and without carriage return, and is blank, a comment, or an assignment of a listed key the agent does not set itself, with a value that key may have and no control character but tabs |
| LegacyPool.DirectiveIsAssignment | migrations/release/mapper.ts:304 | what the pattern takes for a directive is a key, perhaps a bracketed name, a sign with white space around it, and a value in one line |
| LegacyPool.TimeoutReads | migrations/release/mapper.ts:326-341 | a timeout is read as seconds, minutes, hours, days or weeks |
| LegacyPool.WorkerLineDecides | migrations/release/mapper.ts:387-398 | a worker limit from 1 to 1024 is taken out and remembered, any other is refused |
| LegacyPool.SplitIsExactAndFair | migrations/release/mapper.ts:733-758 | the shares sum to the budget, are at least one and differ by at most one |
| LegacyPool.Allocate | migrations/release/mapper.ts:733-758 | the loop gives the i-th PHP domain the i-th share and no one else |
| StagedWorkers.StagedWorkersSplit | migrations/release/mapper.ts:733-769 | in every clean map the worker limits of a site's PHP rows sum to the observed budget, are at least one, differ by at most one, and there is one per PHP domain |
| StagedWorkers.StagedPoolsAreClean | migrations/release/mapper.ts:818-858 | every PHP row of a clean map has a pool text with exactly one effective worker limit and no agent-owned or panel-managed directive besides, also on sites without a pool text |
| StagedWorkers.WorkersAreShares | migrations/release/mapper.ts:733-769 | in position order the limits are the even split of the budget |
| StagedWorkers.PhpRowsOfSite | migrations/release/mapper.ts:804-860 | the PHP rows of a site in the map are those of its PHP domains, each once |
| FinalInvariants.CheckFinal | migrations/release/invariants.ts:168-253 | no violation exactly when the migrated data satisfies the whole final condition against the baseline counts |
| FinalInvariants.CheckHostnames | migrations/release/invariants.ts:134-161 | no violation exactly when all names are usable and claims are compatible |
| FinalInvariants.CheckDomains | migrations/release/invariants.ts:177-213 | no violation exactly when every domain is sound and no runtime key is shared |
| FinalInvariants.CheckDomain | migrations/release/invariants.ts:177-213 | one domain's row and its key claim against the owners so far |
| FinalInvariants.CheckDatabases | migrations/release/invariants.ts:215-252 | no violation exactly when ownership, purposes, single primaries and MODX hold |
| SqlText.ScriptReadsBack | migrations/release/mapper.ts:1130-1137 | lexing the generated script under SQLite's doubled-quote rules and parsing it gives back exactly the inserts of all rows, for any number of rows and any NUL-free text |
| SqlText.InsertComesBack | migrations/release/mapper.ts:1090-1095 | the tokens of one insert, whatever follows them, parse back to its table, columns and values |
| SqlText.LexIdentifier | migrations/release/sqlite.ts:39-42 | a quoted identifier lexes to exactly that name |
| SqlText.LexLiteral | migrations/release/sqlite.ts:45-54 | a quoted literal lexes to exactly that value: text, integer or null |
| StagingTable.SuccessMeansEqual | migrations/release/mapper.ts:1101-1139 | success leaves the table holding exactly the rows, or absent when there are none; refusal and error leave it untouched |
| StagingTable.ApplyDecides | migrations/release/mapper.ts:1101-1139 | which outcome an apply has: refused for a table that differs, nothing to do for one that holds the rows, created or failed for a missing one |
| StagingTable.SecondApplyWritesNothing | migrations/release/mapper.ts:1101-1139 | after a success a second apply has nothing to do and changes nothing |
| StagingTable.OddTableIsRefused | migrations/release/mapper.ts:1053-1088 | a table of another shape, with a foreign row or with a missing row is refused unchanged |
| StagingTable.ContainedAndSameSize | migrations/release/mapper.ts:1084-1086 | comparing one direction and the counts suffices for equality, because keys are distinct |
| StagingTable.StagingDatabase.IndexByKey | migrations/release/mapper.ts:1062-1065 | the index holds each expected row under its own key and nothing else |
| StagingTable.StagingDatabase.Diagnose | migrations/release/mapper.ts:1053-1088 | clean exactly when the stored table is consistent with the rows |
| StagingTable.StagingDatabase.Execute | migrations/release/mapper.ts:1130-1137 | the database runs the text of the script: a readable one with distinct keys creates the table it describes, any other leaves none |
| StagingTable.StagingDatabase.Apply | migrations/release/mapper.ts:1101-1139 | table and outcome are those of the specification about which the lemmas above speak |
| StagedMap.StageInstallation | migrations/release/mapper.ts:1101-1139 | success means the map was clean and the table now holds its rows; failure leaves the table as it was |
| StagedMap.StagedMeansChecked | api/prisma/migrations/z20260731000000_domain_centric_applications/migration.sql:324-392 | migrating from a table that holds the staged rows passes the final check |
| StagedMap.CopyFromTable | api/prisma/migrations/z20260731000000_domain_centric_applications/migration.sql:324-392 | copying from the stored rows, in whatever order they are stored, equals copying from the map |
| StagedMap.RowReadsBack | migrations/release/mapper.ts:995-1017 | a map row written as column values reads back as itself |
| StagedMap.KeyColumnsHold | migrations/release/mapper.ts:995-1017 | the first columns of a persisted row hold contract version, kind, source and site |
| StagedMap.OriginColumnsHold | migrations/release/mapper.ts:995-1017 | the next ones hold domain, database, primary domain, checksum and fingerprint |
| StagedMap.ApplicationColumnsHold | migrations/release/mapper.ts:995-1017 | the last nine hold the application, NULL for what is absent |
| StagedMap.KindsAreNamed | migrations/release/mapper.ts:485-513 | the kinds are written SITE, DOMAIN and DATABASE |
| StagingTable.ColumnsAreNamed | migrations/release/mapper.ts:974-993 | the names of the eighteen columns in order |
| StagedMap.PersistedKeysDistinct | migrations/release/mapper.ts:995-1017 | distinct map rows have distinct primary keys in the table |
| RuntimeReconcile.CutoverReconciles | migrations/runtime-renderer.ts:519-681 | after commit and a successful cleanup every desired target holds its content, every stale target is gone, every other file is unchanged, and no desired target was deleted, whether it is written or only kept; which files are desired is spelled out by CutoverPartByPart |
| RuntimeReconcile.CutoverPartByPart | migrations/runtime-renderer.ts:519-681 | in terms of the plan's own fields: after the cutover every main file, rendered chunk, custom chunk, pool file and file of the tail holds its content; every write is one of these; no deferred delete names one of these or a hand-written chunk; of the files below a site's directory exactly these and the hand-written chunks are left; everything outside stays as it was |
| RuntimeReconcile.SecondRenderIsEmpty | migrations/runtime-renderer.ts:519-681 | rendering over the result succeeds and its manifest is empty |
| RuntimeReconcile.WritesAreNotStale | migrations/runtime-renderer.ts:529-608 | no file that a site wants is among the stale ones, across all sites |
| RuntimeReconcile.DeletesSpareDesires | migrations/runtime-renderer.ts:546-559 | no delete names a target a site asks for, a hand-written chunk that is only kept included |
| RuntimeReconcile.PoolsThatStay | migrations/runtime-renderer.ts:154-183 | an undesired marked pool survives the cutover unchanged, and the next render, exactly when its domain stays without any pool; otherwise it is deleted |
| OrphanedPool.PoolWithoutPhpStays | migrations/runtime-renderer.ts:154-183 | a site whose domain has no PHP and a host with its old pool file: all conditions of a cutover hold and the file is still there afterwards |
| RuntimeReconcile.Render | migrations/runtime-renderer.ts:519-681 | a successful render yields exactly the needed writes and deletes, each target once; a renderable well-placed plan succeeds; what the writes are is spelled out by CutoverPartByPart |
| RuntimeReconcile.RenderSites | migrations/runtime-renderer.ts:529-608 | succeeds exactly when every site is renderable; writes and deletes of all sites are those specified |
| RuntimeReconcile.CollectDesired | migrations/runtime-renderer.ts:546-559 | the desired set grows by exactly the targets this site wants |
| RuntimeReconcile.StaleOfSite | migrations/runtime-renderer.ts:603-607 | exactly the files of the site's tree that nobody wants are deleted; an irregular entry stops the render |
| RuntimeReconcile.RenderPools | migrations/runtime-renderer.ts:637-659 | fails exactly on a pool collision; deletes exactly the stale pools |
| RuntimeReconcile.TargetsDistinct | migrations/runtime-renderer.ts:661-666 | accepts exactly the lists without a repeated target |
| RuntimeRender.AddDesiredArtifacts | migrations/runtime-renderer.ts:398-424 | fails exactly when some target holds something else than a regular file; emits a write exactly for the files that differ |
| RuntimeRender.ClaimPools | migrations/runtime-renderer.ts:561-593 | fails exactly when two pools share a file; the two maps then find each pool by file and by domain |
| RuntimeRender.VerdictMeaning | migrations/runtime-renderer.ts:154-183 | the decision on an existing pool is a collision exactly for a desired file owned by another domain, a deletion exactly for a stale pool |
| RuntimeRender.TreeInWords | migrations/runtime-renderer.ts:603-607 | a site's tree is what lies below /etc/nginx/meowbox and its name |
| RuntimeRender.PoolsInWords | migrations/runtime-renderer.ts:637-646 | pool files are the .conf files in the fpm/pool.d directory of a PHP version |
| RuntimeRender.UuidInWords | agent/src/php/pool-ownership.ts:1-2 | the pattern of a domain id accepts exactly five runs of hexadecimal digits with a version from 1 to 8 and the usual variant |
| RuntimeReconcile.PoolOwnersDecide | agent/src/php/pool-ownership.ts:9-19 | which marked file a desired pool may replace: that of its own domain, or one the migration marked with its runtime key; any other collides and stops the render |
| RuntimeIdentities.LoadIdentities | migrations/runtime-renderer.ts:294-326 | the loader's identity checks let through exactly the databases whose every joined row has safe names, ids, keys and versions |
| RuntimeIdentities.LoadsExactlyWithoutDots | migrations/runtime-renderer.ts:300-312 | an installation the mapper accepts passes the loader's identity checks exactly when no site name has a dot and every domain id has the loader's form |
| RuntimeIdentities.PoolFilesCollide | agent/src/php/pool-template.ts:130-131 | two domains share a pool file exactly when their PHP versions are equal and their keys differ at most in dots against underscores |
| RuntimeIdentities.ClaimTemplatePools | migrations/runtime-renderer.ts:561-593 | with pools placed by the template, the renderer refuses exactly those collisions |
| RuntimeIdentities.MappedPoolsAreApart | migrations/runtime-renderer.ts:561-593 | the PHP domains of a mapped installation that has passed the identity checks have pairwise different pool files |
| RuntimeApply.CommitReaches | migrations/runtime-apply.ts:60-94 | a commit without failures reaches the state in which every write is done and nothing else changed |
| RuntimeApply.CommitDecides | migrations/runtime-apply.ts:60-94 | a fault-free commit succeeds exactly when every write finds a regular file, or none and complete metadata |
| RuntimeApply.PartialCommit | migrations/runtime-apply.ts:60-94 | wherever it fails, each target is either done or as before |
| RuntimeApply.InterruptedCommitResumes | migrations/runtime-apply.ts:60-94 | a commit that failed anywhere and is run again reaches the state of an uninterrupted one |
| RuntimeApply.KilledCommitResumes | migrations/runtime-apply.ts:60-94 | the same after a kill behind any artifact |
| RuntimeApply.SecondCommitIsIdle | migrations/runtime-apply.ts:60-94 | a further commit writes nothing whatever fails, and succeeds if the staged files can be read, even if every write would fail |
| RuntimeApply.CommitLeavesSettled | migrations/runtime-apply.ts:40-58 | after any commit that succeeded, every write artifact passes the check made after it |
| RuntimeApply.CommittedFile | migrations/runtime-apply.ts:60-94 | what a fault-free commit leaves at a target: the staged content, with mode, uid and gid as declared or, where not declared, as before |
| RuntimeApply.CommitStaysOnTargets | migrations/runtime-apply.ts:60-94 | whatever fails, a commit changes nothing but the targets of its writes |
| RuntimeApply.RuntimeHost.CommitArtifacts | migrations/runtime-apply.ts:60-94 | disk, success and count of the loop are those of the specification, with staged files that cannot be read and writes that fail |
| RuntimeApply.RuntimeHost.AssertCommitted | migrations/runtime-apply.ts:40-58 | passes exactly when every write target is a regular file with the digest and metadata of its artifact |
| RuntimeApply.RuntimeHost.SwitchRuntime | migrations/runtime-apply.ts:180-188 | succeeds exactly when commit, reloads and sockets do; the disk is the committed one either way |
| RuntimeApply.RuntimeHost.RemoveDeferred | migrations/runtime-apply.ts:146-172 | disk, snapshots and success of the delete loop are those of the specification |
| RuntimeApply.RemovalShape | migrations/runtime-apply.ts:146-172 | only deferred targets disappear, all of them on success, and no snapshots means no change |
| RuntimeApply.RemovalDecides | migrations/runtime-apply.ts:146-172 | the deletes succeed exactly when every deferred target that exists is a regular file of at most 2 MiB that can be unlinked, and then exactly those targets are gone |
| RuntimeApply.RuntimeHost.RestoreRemoved | migrations/runtime-apply.ts:174-178 | restores the snapshots in reverse order |
| RuntimeApply.RestoreUndoesRemoval | migrations/runtime-apply.ts:146-178 | restoring the snapshots of any removal, finished or not, brings back the exact disk: content, mode and owner |
| RuntimeApply.FailedDeletesStay | migrations/runtime-apply.ts:146-172 | after a failed delete the disk is unchanged exactly when nothing had been deleted before it |
| RuntimeApply.RuntimeHost.CleanupRuntime | migrations/runtime-apply.ts:190-213 | without deletes nothing happens; a failed reload or socket wait restores everything; a failed delete restores nothing |
| RuntimeManifest.CanonicalMeansEquivalent | migrations/runtime-manifest.ts:78-104 | canonical forms are equal exactly for manifests with the same artifacts, services, sockets and validations up to order and staging directory, and with the same status sets at every URL, in order only where probes share a URL |
| RuntimeManifest.StagingDoesNotShow | migrations/runtime-manifest.ts:78-104 | manifests that differ only in where their files are staged have one canonical form |
| RuntimeManifest.ProbesSortAlike | migrations/runtime-manifest.ts:98-100 | two probe lists have one canonical form exactly when every URL has the same sequence of status sets |
| RuntimeManifest.EqualFormsBindArtifacts | migrations/runtime-manifest.ts:78-104 | equal canonical forms force the same artifacts apart from where they are staged |
| RuntimeManifest.EqualFormsWriteAlike | migrations/runtime-manifest.ts:256-274 | with a collision-free digest, equal forms whose staged files pass the digest check write the same bytes and metadata |
| RuntimeManifest.ParseArtifacts | migrations/runtime-manifest.ts:161-216 | accepts exactly the lists of acceptable artifacts with distinct managed targets |
| RuntimeManifest.AcceptableInWords | migrations/runtime-manifest.ts:161-216 | action by action: a create with all its metadata, a replace with mode or owner or neither, each with a staged file of known digest, and a delete with nothing, all on managed paths |
| RuntimeManifest.ParsedIsWellFormed | migrations/runtime-manifest.ts:161-216 | an accepted manifest meets the assumptions of the commit and cleanup theorems |
| RuntimeManifest.OnlyManagedPathsChange | migrations/runtime-manifest.ts:161-216 | whatever is staged and whatever fails, commit and deferred deletes of an accepted manifest leave every path that is not managed as it is |
| RuntimeManifest.ParsedCommits | migrations/runtime-manifest.ts:161-216 | an accepted manifest commits on every disk whose targets are regular files, if it replaces existing ones only |
| AgentJobs.RunKeepsInv | agent/src/agent-job.runtime.ts:117-349 | every possible run keeps the invariant of table and wire, and every object only evolves lawfully |
| AgentJobs.StepKeepsInv | agent/src/agent-job.runtime.ts:117-349 | so does every single event: start, cancel, deadline, progress, settlement, attach, detach, register, unregister |
| AgentJobs.TerminalNeverChanges | agent/src/agent-job.runtime.ts:256-320 | state, result and error of a finished job are the same after any further run |
| AgentJobs.CancelRequestedNeverSucceeds | agent/src/agent-job.runtime.ts:195-254 | a job whose cancel was requested is cancel-safe and stays requested or cancelled for ever |
| AgentJobs.WireIsCoherent | agent/src/agent-job.runtime.ts:322-349 | of one job's emissions a later one has a larger sequence, nothing but results follows a result, and all results agree |
| AgentJobs.RunningAtMostTwo | agent/src/agent-job.runtime.ts:117-176 | in every reachable state at most two jobs are unfinished, dropped ones included, and at most 1000 records are kept |
| AgentJobs.ReplayIsIdempotent | agent/src/agent-job.runtime.ts:128-142 | repeating a start adds no object, rejects another identity without any change, and sends exactly the final result again when the job has ended and a socket is attached |
| AgentJobs.HandlerRunsOncePerRecord | agent/src/agent-job.runtime.ts:128-176 | a handler is started only by a start with an unknown id, a registered action and a deadline ahead |
| AgentJobs.LateReportsChangeStatusOnly | agent/src/agent-job.runtime.ts:178-193 | over any run after a job's end its status reply keeps state, result and error, its step and progress differ exactly when a later report said something else, and the wire carries only its result again |
| AgentJobs.AgentJobRuntime.HandleStatus | agent/src/agent-job.runtime.ts:178-193 | answers for a known job of that operation, and missing otherwise |
| AgentJobs.PruneDropsOne | agent/src/agent-job.runtime.ts:406-414 | a prune keeps the invariant, drops at most one record, finished and over an hour old, and leaves the table full exactly when no such record exists |
| AgentJobs.PruneFromDropsOne | agent/src/agent-job.runtime.ts:406-414 | the same for the scan from any point of the table |
| AgentJobs.AgentJobRuntime.RegisterHandler | agent/src/agent-job.runtime.ts:88-99 | refuses exactly a malformed or already known action id and then changes nothing |
| AgentJobs.AgentJobRuntime.UnregisterHandler | agent/src/agent-job.runtime.ts:96-98 | takes back its own registration and no later one |
| AgentJobs.AgentJobRuntime.AttachSocket | agent/src/agent-job.runtime.ts:101-115 | the step of attaching |
| AgentJobs.AgentJobRuntime.DetachSocket | agent/src/agent-job.runtime.ts:101-115 | the step of detaching |
| AgentJobs.AgentJobRuntime.HandleStart | agent/src/agent-job.runtime.ts:117-176 | state and reply are those of the start step, for every request |
| AgentJobs.AgentJobRuntime.StartKnown | agent/src/agent-job.runtime.ts:128-142 | the same for a known id |
| AgentJobs.AgentJobRuntime.StartFresh | agent/src/agent-job.runtime.ts:143-176 | the same for a new id, with its four refusals |
| AgentJobs.AgentJobRuntime.CountActive | agent/src/agent-job.runtime.ts:147-149 | counts the unfinished jobs of the table |
| AgentJobs.AgentJobRuntime.HandleCancel | agent/src/agent-job.runtime.ts:195-254 | state and reply are those of the cancel step |
| AgentJobs.AgentJobRuntime.DeadlineElapsed | agent/src/agent-job.runtime.ts:260-265 | the step of an expired deadline |
| AgentJobs.AgentJobRuntime.ReportProgress | agent/src/agent-job.runtime.ts:278-288 | the step of a progress report; a malformed step or progress changes nothing |
| AgentJobs.AgentJobRuntime.Finish | agent/src/agent-job.runtime.ts:256-320 | the step of a settled handler, which keeps the table valid |
| AgentJobs.AgentJobRuntime.Conclude | agent/src/agent-job.runtime.ts:294-319 | the settlement step, whose outcomes SettlementDecides lists: cancellation, success, failure, forbidden field, oversized or unserialisable result |
| AgentJobs.SettlementDecides | agent/src/agent-job.runtime.ts:256-320 | how a settled handler ends an unfinished job: cancelled exactly when a cancel was requested; else succeeded exactly for a fulfilled value that is serialisable, without forbidden field and within 1 MiB, with that value and progress 100; else failed with the matching error, a rejection with its own message; the last emission on an attached socket says exactly that, and a finished job stays as it is |
| AgentJobs.CancelDecides | agent/src/agent-job.runtime.ts:195-254 | what a cancel does: an unknown job or another operation is not found, a finished or unsafe job is left alone, any other becomes requested and nothing else changes |
| AgentJobs.DeadlineDecides | agent/src/agent-job.runtime.ts:260-265 | an elapsed deadline requests the cancel of an unfinished job that can be cancelled safely and changes nothing else |
| AgentJobs.HeartbeatDecides | agent/src/agent-job.runtime.ts:278-334 | an unfinished job is heard at every tick and every well-formed report, under the next sequence number and with the reported step and progress; anything else changes nothing |
| AgentJobs.StartDecides | agent/src/agent-job.runtime.ts:143-176 | what becomes of a start with a new id: an elapsed deadline, two unfinished jobs, an unregistered action or a full table refuse it, in this order; otherwise it is recorded as running from the beginning and announced, and every other record stays but at most an old one |
| AgentJobs.RegistrationDecides | agent/src/agent-job.runtime.ts:88-99 | a registration adds exactly its own action when the id is well formed and free, and only its own handler can take it back |
| AgentJobs.StatusDecides | agent/src/agent-job.runtime.ts:178-193 | a status query is told the job of that operation as it stands, with a result only when it succeeded, and missing otherwise; attaching and detaching change nothing but the connection |
| AgentJobs.ActionIdsInWords | agent/src/agent-job.runtime.ts:88-91 | the pattern of an action id accepts exactly a word followed by one or more dotted parts |
| AgentJobs.AgentJobRuntime.SendHeartbeat | agent/src/agent-job.runtime.ts:322-334 | sends and counts only for an unfinished job on an attached socket |
| AgentJobs.AgentJobRuntime.SendResult | agent/src/agent-job.runtime.ts:336-349 | sends and counts only on an attached socket |
| AgentJobs.AgentJobRuntime.PruneJobs | agent/src/agent-job.runtime.ts:406-414 | the table afterwards is the pruned one, and the answer says whether there is room |
| SystemHistory.AssessSystemMigrationHistory | migrations/system-history.ts:258-371 | accepts exactly the histories in which every stored row meets one of the five rules (plain success, bound alias, exact retryable failure, retired success, proven superseded failure) under a valid contract; then it names each non-plain row once, in input order |
| SystemHistory.AcceptanceIgnoresOrder | migrations/system-history.ts:258-371 | permuting the stored rows does not change acceptance |
| SystemHistory.RulesAreExclusive | migrations/system-history.ts:258-371 | a row is accepted under one kind and reason only, and never when it is plain |
| SystemHistory.ShippedRowRule | migrations/system-history.ts:273-325 | a row of a shipped migration is accepted exactly when it is a success without log under the shipped checksum or one its alias lists, or a failure under a listed checksum whose log contains every fragment of a retryable alias |
| SystemHistory.RetiredRowRule | migrations/system-history.ts:327-367 | a row of a retired migration is accepted exactly when it is recorded as that success, or as that failure with that error digest while the success of its successor is stored |
| SystemHistory.NamedRowsAreOk | migrations/system-history.ts:272-368 | a history that can be named consists of rows that meet their rules |
| SystemHistory.ValidateCompatibilityContract | migrations/system-history.ts:179-252 | accepts exactly the well-formed contracts for the current artifacts |
| SystemHistory.AssertUniqueIds | migrations/system-history.ts:163-171 | accepts exactly the lists without a repeated id |
| SystemHistory.IndexById | migrations/system-history.ts:265-268 | the map finds every item under its id and nothing else |
| SystemHistory.JudgeCurrent | migrations/system-history.ts:273-325 | a row of a shipped migration is accepted exactly when it meets its rule, and named exactly when it is not plain |
| SystemHistory.JudgeRetired | migrations/system-history.ts:327-367 | the same for a row of a retired migration |
| SystemHistory.JudgeRow | migrations/system-history.ts:272-368 | the same for any row |
| SystemHistory.CollectLegacy | migrations/system-history.ts:272-368 | the loop accepts exactly when all rows meet their rules |
| SystemHistory.CurrentRowRules | migrations/system-history.ts:273-325 | under a valid contract the rules for retired migrations never apply to a shipped one |
| MigrationLedger.FreshLedgerIsLawful | migrations/runner.ts:249-373 | from an empty ledger, any sequence of up, retry and baseline with failures, refusals and kills leaves a prefix of successes plus at most one failure right behind it |
| MigrationLedger.LedgerStaysLawful | migrations/runner.ts:249-373 | the same from any such ledger |
| MigrationLedger.FailureBlocksEverythingElse | migrations/runner.ts:249-373 | while a failure is recorded, only an admissible retry of that id changes the ledger |
| MigrationLedger.PrefixAcceptance | migrations/system-history.ts:258-371 | a ledger of successes is accepted exactly when the compatibility contract is valid |
| MigrationLedger.FailureAcceptance | migrations/system-history.ts:271-298 | a ledger with a failure is accepted exactly when the contract is valid and an alias declares that failure retryable |
| MigrationLedger.FailureIsRefused | migrations/system-history.ts:271-298 | without an alias for a shipped checksum a failure is never accepted |
| MigrationLedger.AttemptKeepsShape | migrations/runner.ts:592-644 | one recorded attempt either extends the prefix or leaves one failure behind it |
| MigrationLedger.AttemptIsRecorded | migrations/runner.ts:592-644 | what one attempt leaves: nothing after a refusal or kill, a success without log, or a failure whose log ends with the thrown error, cut to the last 32 KiB |
| MigrationLedger.UpStopsAtFirst | migrations/runner.ts:249-307 | up records the successes in order up to the first attempt that does not succeed, records that one when it threw, and tries nothing behind it |
| MigrationLedger.UpWritesNothing | migrations/runner.ts:249-307 | a dry run and a refused history write nothing |
| MigrationLedger.BaselineDecides | migrations/runner.ts:381-432 | on a prefix of successes the baseline records everything exactly when the database is proven fresh and the contract fits |
| MigrationLedger.BaselineGuardDecides | migrations/runner.ts:381-432 | over any ledger: without proof of a fresh database, or beside any row that is not a clean success of a shipped artifact, a baseline changes nothing; otherwise it appends clean successes until every artifact is recorded |
| MigrationLedger.UpCompletes | migrations/runner.ts:249-307 | if every attempt succeeds, up records every artifact |
| MigrationLedger.OnlyTheFailureMayRetry | migrations/system-retry.ts:16-59 | a retry is admitted exactly for the failed artifact, with a valid contract, a safe id and a proper checksum |
| MigrationLedger.RetryGuardDecides | migrations/system-retry.ts:16-59 | over any records, the guard of a retry passes exactly for a safe id and checksum, one row of that id which is a failure with an error under that checksum, and nothing recorded behind it |
| MigrationLedger.SafeIdsInWords | migrations/system-retry.ts:1 | the pattern of an id accepts exactly a date, a three-digit number and a name, joined by dashes |
| MigrationLedger.RetryOutcome | migrations/runner.ts:348-373 | a retry keeps the shape, and an admitted successful one extends the prefix |
| MigrationLedger.FailureIsLast | migrations/runner.ts:348-373 | nothing is recorded after a failure and everything before it succeeded, so the two order guards of retry never fire for it |
| MigrationLedger.MigrationsRunner.RunUp | migrations/runner.ts:249-307 | ledger of the specification; completes exactly when the history is accepted and every pending attempt succeeds |
| MigrationLedger.MigrationsRunner.ApplyOne | migrations/runner.ts:592-644 | a refused preflight or a kill records nothing; otherwise the outcome replaces the row of that id |
| MigrationLedger.MigrationsRunner.UpsertRow | migrations/runner.ts:624-640 | replaces the row of that id in place or appends it |
| MigrationLedger.MigrationsRunner.RetryFailed | migrations/runner.ts:348-373 | ledger of the specification; completes exactly when the retry is admitted and succeeds |
| MigrationLedger.MigrationsRunner.BaselineFreshInstall | migrations/runner.ts:381-432 | all missing artifacts are recorded as successes, or nothing changes |
| MigrationLedger.MigrationsRunner.BaselineRowsMatch | migrations/runner.ts:390-409 | passes exactly when every stored row is a clean success of a shipped artifact |
| MigrationLedger.BaselineKeepsLawful | migrations/runner.ts:381-432 | a baseline over a lawful ledger leaves a lawful one |
| RekeySecrets.SecretsAlwaysSurvive | migrations/system/2026-05-10-002-rekey-secrets.ts:227-455 | over any number of runs killed anywhere, a blob that some key opens stays readable with the same text, under that key or under the new one |
| RekeySecrets.FinishedRunIsFinal | migrations/system/2026-05-10-002-rekey-secrets.ts:227-455 | a finished run leaves every blob of the five tables that it could read under the new key with its original text, every unreadable one untouched, and the next run rewrites none |
| RekeySecrets.FinishedTable | migrations/system/2026-05-10-002-rekey-secrets.ts:459-515 | the same for one table |
| RekeySecrets.RekeyCellSurvives | migrations/system/2026-05-10-002-rekey-secrets.ts:172-195 | a cell changes only if the legacy key opens it and the new one does not; a readable cell ends under the new key with the text it had |
| RekeySecrets.OneKeyOpens | migrations/system/2026-05-10-002-rekey-secrets.ts:51-68 | a blob opens under at most one key |
| RekeySecrets.PasswordsNeverLost | migrations/system/2026-05-10-002-rekey-secrets.ts:274-323 | if the column probes answer, a plain password stays or is sealed, over any number of killed runs; a ciphertext stored before stays as CiphertextsStay says |
| RekeySecrets.CiphertextsStay | migrations/system/2026-05-10-002-rekey-secrets.ts:274-323 | over any number of killed runs a non-empty ciphertext of a site is never changed, whatever its plain column holds, and no site changes its id or place |
| RekeySecrets.PlainGoesBehindCiphertext | migrations/system/2026-05-10-002-rekey-secrets.ts:274-323 | a plain password without ciphertext is sealed under the new key, and beside a ciphertext only the plain column is cleared |
| RekeySecrets.ClearedUpToTheKill | migrations/system/2026-05-10-002-rekey-secrets.ts:277-323 | a run that dies in a password loop has cleared exactly the plain passwords of the rows before the kill, with or without a ciphertext beside them |
| RekeySecrets.SshPasswordFate | migrations/system/2026-05-10-002-rekey-secrets.ts:277-299 | the password survives a run exactly when the probe answered or the run ended before the column was dropped |
| RekeySecrets.CmsPasswordFate | migrations/system/2026-05-10-002-rekey-secrets.ts:302-323 | the same for the CMS password |
| RekeySecrets.FinishedDropsPlainText | migrations/system/2026-05-10-002-rekey-secrets.ts:411-437 | after a finished run no plain password is left |
| RekeySecrets.RenamedKeyIsFoundAgain | migrations/system/2026-05-10-002-rekey-secrets.ts:129-165 | over the environment variable and all candidate directories, the next run finds the same key in every listing order exactly when no copy beside the found one differs |
| RekeySecrets.KeySearchOrder | migrations/system/2026-05-10-002-rekey-secrets.ts:129-165 | where a legacy key comes from: a 32-byte environment key, else the first directory with the key file or a renamed copy of 32 bytes, the key file before its copies |
| RekeySecrets.FinishedRunStaysFinal | migrations/system/2026-05-10-002-rekey-secrets.ts:397-409 | without such copies a finished run, its renames and any later run together rewrite no blob again |
| RekeySecrets.RekeyMigration.Up | migrations/system/2026-05-10-002-rekey-secrets.ts:227-455 | the database after a run killed at any point is the specified one |
| RekeySecrets.RekeyMigration.SealPasswords | migrations/system/2026-05-10-002-rekey-secrets.ts:274-323 | both password loops, row by row up to the kill |
| RekeySecrets.RekeyMigration.SealSshPasswords | migrations/system/2026-05-10-002-rekey-secrets.ts:277-299 | exactly the rows before the kill are sealed; what sealing does to a row is stated by CiphertextsStay and PlainGoesBehindCiphertext |
| RekeySecrets.RekeyMigration.SealCmsPasswords | migrations/system/2026-05-10-002-rekey-secrets.ts:302-323 | exactly the rows before the kill are sealed |
| RekeySecrets.RekeyMigration.RekeyTables | migrations/system/2026-05-10-002-rekey-secrets.ts:325-395 | the five tables in order, each with its own keys, up to the kill |
| RekeySecrets.RekeyMigration.RekeyTable | migrations/system/2026-05-10-002-rekey-secrets.ts:459-515 | the rows before the kill are rekeyed, the others untouched |
| RekeySecrets.RekeyMigration.DropPlainColumns | migrations/system/2026-05-10-002-rekey-secrets.ts:411-437 | each column present is dropped with its contents unless the run died before |
| QuiesceGate.OwnedUntilReleased | migrations/quiesce.ts:79-133 | over any serialised sequence of commands with kills, a marker changes only by a permitted release: resume of its owner, or recovery with a safe journal, after both processes were seen online together |
| QuiesceGate.OwnedSinceTaken | migrations/quiesce.ts:106-133 | a marker present now was taken, while the gate was open, by a quiesce of its owner and has not changed since |
| QuiesceGate.CommittedGateStaysClosed | migrations/quiesce.ts:79-104 | without a resume of its owner and while its journal is not safe, the marker stays |
| QuiesceGate.MaintenanceGate.Execute | migrations/quiesce.ts:270-302 | every command, killed anywhere, is a gate step |
| QuiesceGate.MaintenanceGate.ExecuteAll | migrations/quiesce.ts:270-302 | a sequence of commands is a gate run |
| QuiesceGate.MaintenanceGate.WriteMarker | migrations/quiesce.ts:106-133 | never overwrites another marker; done exactly when the gate was open to this transaction |
| QuiesceGate.MaintenanceGate.StopPanel | migrations/quiesce.ts:178-188 | done means so at a look of its own; when every question is answered and it is not killed, done exactly when both processes are seen stopped |
| QuiesceGate.MaintenanceGate.EnsureOnline | migrations/quiesce.ts:190-203 | done means so at a look of its own; when every question is answered and it is not killed, done exactly when one of its looks before the timeout shows both processes online |
| QuiesceGate.MaintenanceGate.WaitForOperations | migrations/quiesce.ts:205-213 | done means so at a look of its own; when every question is answered and it is not killed, done exactly when one of its looks before the timeout shows no active operation |
| QuiesceGate.MaintenanceGate.CheckGate | migrations/quiesce.ts:277-280 | when every question is answered and it is not killed, done exactly when there is no marker and no active operation |
| QuiesceGate.MaintenanceGate.QuiescePanel | migrations/quiesce.ts:281-290 | done means the marker is this transaction's, and operations had drained before both processes stopped; another's marker refuses |
| QuiesceGate.MaintenanceGate.ResumePanel | migrations/quiesce.ts:215-222 | done means no marker; another's marker is kept and refuses; unkilled and with every question answered, done exactly when the gate is open to it and the panel comes online |
| QuiesceGate.MaintenanceGate.RecoverStale | migrations/quiesce.ts:250-268 | without the lock it refuses; with it, unkilled and with every question answered, done exactly when the owner's journal is safe and the panel comes online |
| QuiesceGate.RecoveryNeedsSafeJournal | migrations/quiesce.ts:250-268 | recovery removes a marker only under the lock, after reading a journal of the marker's owner at phase quiesce without commit or snapshot, and after seeing both processes online |
| StableJson.CanonicalIgnoresKeyOrder | migrations/release/stable.ts:18-28 | values that differ only in key order at any depth have one canonical form |
| StableJson.CanonicalIsIdempotent | migrations/release/stable.ts:18-28 | the canonical form of a canonical form is itself, also with integer-like keys |
| StableJson.CanonicalOrder | migrations/release/stable.ts:18-28 | the keys of a canonical object come out in the order a JavaScript object lists them: array indices by number, then the other keys as the comparison has them |
| StableJson.IndexMeaning | migrations/release/stable.ts:18-28 | which keys count as array indices: canonical decimals below 2^32 - 1 |
| StableJson.CanonicalIsFaithful | migrations/release/stable.ts:18-28 | for values without the lost key, equal canonical forms mean values equal up to key order |
| StableJson.SurvivesExactlyWhenClean | migrations/release/stable.ts:18-28 | a value equals its canonical form up to key order exactly when it has no lost key at any depth |
| StableJson.ProtoLeavesNoTrace | migrations/release/stable.ts:18-28 | adding the lost key, with any value, does not change the canonical form |
| StableJson.CanonicalIsProper | migrations/release/stable.ts:18-28 | canonical objects again have distinct keys |
| StableJson.SortJsonValue | migrations/release/stable.ts:18-28 | the recursion with its loops computes the canonical form |
| StableJson.SortList | migrations/release/stable.ts:18-28 | the loop over an array |
| StableJson.SortValues | migrations/release/stable.ts:18-28 | the loop over an object's values |
| StableJson.FillObject | migrations/release/stable.ts:18-28 | the loop that assigns the sorted properties, as JavaScript places them |
| OutputStreams.ChunkingIsInvisible | agent/src/command-executor.ts:609-625 | with no line over the limit, the lines and the tail are those of the whole stream, however it was cut |
| OutputStreams.CutsAgree | agent/src/command-executor.ts:609-638 | two cuts of one such stream show the same lines and carry the same tail |
| OutputStreams.CloseIsInvisible | agent/src/command-executor.ts:684-688 | with no line over the limit, all that is shown up to the close of a stream is what the whole text closed at once shows, however it was cut |
| OutputStreams.CloseKeepsColours | agent/src/command-executor.ts:684-688 | a text that loses its colour codes before a line break keeps them at the close |
| OutputStreams.ReturnIsDropped | agent/src/command-executor.ts:609-625 | a carriage return before a line break is not shown |
| OutputStreams.PlainLineIsShown | agent/src/command-executor.ts:609-625 | a line without colour codes is shown as it is, cut to 4000 characters, unless it is blank |
| OutputStreams.ColourIsStripped | agent/src/command-executor.ts:609-625 | a colour code vanishes from what is shown, the text before and after it does not |
| OutputStreams.StreamIsBounded | agent/src/command-executor.ts:609-625 | the tail and every shown line stay within the limit, for every stream, and no blank line is shown |
| OutputStreams.LongLineShowsTheCut | agent/src/command-executor.ts:609-625 | a line shows the same text in one chunk and cut after k characters exactly when k is at most 4000, or the cleaned heads of the line and of what the tail remembered are equal, or both are blank |
| OutputStreams.CutLine | agent/src/command-executor.ts:609-625 | a line that arrives in two chunks shows what its last 4000 characters before the cut and the rest show together |
| OutputStreams.FlushChunk | agent/src/command-executor.ts:609-625 | lines shown and tail kept for one chunk |
| OutputStreams.LineStreamer.OnData | agent/src/command-executor.ts:629-638 | everything shown so far is what the chunks received so far show |
| OutputStreams.LineStreamer.OnClose | agent/src/command-executor.ts:684-688 | together with everything shown before, its lines are those of the closed stream |
| OutputStreams.OutputCapture.Collect | agent/src/command-executor.ts:476-495 | keeps exactly what still fits and flags the first stream that does not fit |
| OutputStreams.OutputCapture.OnStdout | agent/src/command-executor.ts:476-495 | the capture holds the first bytes of each stream up to the limit |
| OutputStreams.OutputCapture.OnStderr | agent/src/command-executor.ts:476-495 | the same for the other stream |
| OutputStreams.OverflowMeansOver | agent/src/command-executor.ts:476-495 | no overflow exactly when both streams are within the limit, and the flagged one is over it |
| EventQueue.RunKeepsInv | agent/src/agent.service.ts:3819-3863 | over every run: sent then queued events are in submission order without duplicates, the queue is within its cap, and each event is in exactly one place: sent, queued, handed elsewhere, or dropped by cap or age |
| EventQueue.StepKeepsInv | agent/src/agent.service.ts:3819-3863 | the same for every step |
| EventQueue.FlushRespectsAge | agent/src/agent.service.ts:3839-3863 | a flush expires exactly the events past their lifetime, sends none of them, and sends all others if the connection holds |
| EventQueue.SubmissionDecides | agent/src/agent.service.ts:3819-3837 | what becomes of a submission: sent at once while connected; queued behind the others while not, and only a full queue gives up its oldest event for it; the three backup completions go their own way |
| EventQueue.OverflowHasACause | agent/src/agent.service.ts:3829-3835 | an event is dropped for want of room only by a submission to a full queue while disconnected, and then it is the oldest |
| EventQueue.ConnectDecides | agent/src/agent.service.ts:3839-3863 | a connect sends the events within their lifetime in order, up to the drop, and keeps the rest queued with their old times |
| EventQueue.OutgoingEvents.EmitOrQueue | agent/src/agent.service.ts:3819-3837 | the step of a submission, whose outcomes SubmissionDecides lists, and which event is handed to the socket |
| EventQueue.OutgoingEvents.OnConnect | agent/src/agent.service.ts:3839-3863 | the step of a connect, and which events are handed to the socket |
| EventQueue.OutgoingEvents.OnDisconnect | agent/src/agent.service.ts:283-286 | the step of a disconnect |
| EventQueue.SendAll | agent/src/agent.service.ts:3854-3862 | sends in order until the connection drops and queues the rest in order |

## Left out

- BuildLegacyMap: warnings, row digests, public payloads and source fingerprints of the map are not modelled; missing legacy tables or columns are not either, each table is given as its rows.
- Hostname normalisation (`domainToASCII`) and the JSON decoding of alias lists are functions in the mapper's environment; the theorems hold for any, and mapper and checker share them because the source does.
- SafePoolCustom: the two credential patterns are one abstract predicate on the text; everything else about the text is modelled.
- SocketBytes: the socket directory is taken as an absolute path, as its defaults are.
- CountsSurvive: copies whatever the staging rows say; what the guard before the copy asks is stated by GuardAsksTwoMore.
- GuardAsksTwoMore: the guard's conditions over several rows or other tables are left out: row counts, shared checksums, users, deploy logs, environment texts, the integrity and foreign-key checks, and the unique index on database names and types; for unique keys and primary databases see KeysHold and DatabasesHold.
- RegistryAsksNoRepeats: an alias object that repeats its `domain` key is read alike by both JSON decoders; the model has one text per alias item.
- SurvivingDirectives: the quoting and continuation lines of PHP-FPM's own file format are not modelled; effective directives are those the mapper's line pattern finds.
- ScriptReadsBack: the PRAGMA, BEGIN, COMMIT and CREATE TABLE lines around the inserts are not lexed; a script that fails in the middle is taken to leave no table.
- LexLiteral: numeric literals are integers, the only numbers a map row holds.
- Strings are sequences of Unicode characters; lengths that JavaScript counts in UTF-16 units agree for text in the basic plane only. Byte limits are modelled in UTF-8 bytes.
- SHA-256, HKDF, AES-GCM and `localeCompare` are abstract: a digest function, an ideal cipher with distinct derived keys, and a strict order; where collision freedom is needed it is a stated assumption.
- FinishedRunIsFinal: assumes that the next run finds the same legacy keys (when it does, see RenamedKeyIsFoundAgain) and that the probe of the databases table answered.
- RenamedKeyIsFoundAgain: the environment does not change between the runs, and a directory whose own path contains `.legacy.`, where nothing is renamed, is treated like any other.
- RekeyMigration.Up: the snapshot before it, VACUUM and the loading of the environment are left out; each row update and each column drop is atomic.
- CutoverReconciles: assumes well-placed plans (distinct targets, site files below their own directory, pool text that carries its owner's id); what the Nginx and PHP pool templates render is an input.
- Render: a plan that is not well placed may be refused for reasons the model does not list; enabled links are one boolean per site.
- LoadIdentities: of the loader only the identity checks are modelled; certificates, aliases and Nginx settings are left out.
- CleanupRuntime: reloads and socket waits are outcomes given as parameters, and restoring writes are assumed to succeed.
- RuntimeApply.RuntimeHost.SwitchRuntime: service outcomes are parameters as well; readiness polling over HTTP is left out.
- ParseArtifacts: services, sockets and probe entries are parsed elsewhere in the same function and are not modelled; which paths count as managed is an abstract predicate.
- CanonicalMeansEquivalent: probes that share one URL keep their input order in the canonical form, so orders of those are told apart, as in the source; the printed JSON text is not modelled.
- QuiesceGate.MaintenanceGate.Execute: PM2 and SQLite answers are observations at each moment; the temporary file and the release lock are not modelled, commands are serialised as the lock makes them.
- RunUp: the planning done by a dry run, and what preflights and migrations do to the host, are left out; each attempt is one of four outcomes. `down`, which may remove any row, is no step of the ledger.
- BaselineFreshInstall: the checks that the database is empty and final are one boolean.
- HandleStart: request validation is left out; a handler is its settlement, and error messages are not redacted.
- OnData: chunks are text already decoded; UTF-8 sequences split between chunks, exit codes and timeouts are left out.
- EmitOrQueue: backup completions have their own delivery and are only counted as handed over; event payloads are not modelled.
- Left out because they only read the database schema or drive the host: baseline and fingerprint readers, the runtime validator, release hooks, the other system migrations, the RPC handlers, the API, the web panel and the tools.
