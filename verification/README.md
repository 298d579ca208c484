# cup: verified model

`cup` keeps toolchain packages below one root: a components tree with one directory per package, `state.txt`
with the installed packages and the defaults, `transaction.txt` while a package operation is in flight, a
staging area, a catalog and a lock file. This project models that core in Dafny and proves what its parts
promise together. `dafny verify dfyconfig.toml` checks all of it.

The modules, from the bottom up:

- **Text, Versions, Paths, Documents**: string order and sorting, version texts and their order, path segments,
  line-oriented documents with their reader.
- **Domain, States, StateDocument, StateFiles, StateReadings**: package identities and the closed registries, the
  state arrays with their operations, and `state.txt` as bytes. `CupState` is edited in place as in `src/state.c`; `Doc` (a set
  and a map) is what its arrays mean, and every operation is stated on both.
- **JournalDocument**: `transaction.txt` as bytes.
- **Disks**: named file system objects with durability. `Disk.now` is what processes see, `Disk.log` every world
  ever shown since the last power loss, `Disk.durable` how far the log is safe. A rename or removal appends to the
  log and a directory sync moves `durable` forward; a power loss keeps some world of the log at or after
  `durable`, so it drops a suffix of the unconfirmed changes. Every operation may fail at every point where the
  source checks for failure, with the three commit states of `src/system_posix.c`.
- **Recovery, Installs, Removals, Sessions**: recovery of a pending package transaction, install and remove as step
  sequences with rollback, and runs of any commands with cuts anywhere. `Settle` is the world an undisturbed
  recovery leaves; `Inv` is the invariant of every world a disk can hold; `Within` says that a world belongs to one
  transaction. `Disk.reliable` is a disk on which nothing fails; it serves to say when operations must succeed.
- **Updates, Repairs, RepairCommands**: the update plan and its execution between other commands, the reconciliation
  of state with a scan, and repair of a whole disk.
- **Catalogs, Refreshes**: accepted record sets and queries, and the compare-and-swap refresh of any number of
  processes.
- **DirectoryLosses**: what power losses may undo after a recovery when every directory is durable on its own.
- **PathTables, SymlinkTargets, LinkResolution, Manifests, ManifestChecks, ManifestTexts, ManifestLinks**: which
  archives an extraction accepts, symlink confinement, lexical and followed, and what a passed manifest check says.
- **Handoffs**: locks on open-file descriptions and the handoff of exclusive authority to a helper, as a state
  machine over the steps of parent, child, helper and other processes.

Where the code differs from what is claimed for it, or a check says less than it may seem to, the model follows the
code and states exactly when the claim holds:

- `docs/design/TRANSACTIONS.md` says that a corrupt package can be removed. The command checks presence only, and
  recovery of a recorded package needs a valid copy: `Removals.RemoveOperation.Execute` shows for every removal
  which of its cuts recovery can follow, `Removals.ShapeRecoverableIff` that while the journal stands beside the old
  state these are exactly the cuts of a package that was valid, and `Sessions.CorruptPackageBlocksRecovery` runs a
  removal that is cut so that recovery and repair refuse. The invariant of sessions is kept because commands start
  from states that agree with valid packages.
- The package journal is described as a strict format-2 record. The reader compares keys with raw line numbers and
  skips lines without content, so the first line may be a comment or empty and the format value is then never
  checked: `JournalDocument.LoadIff` gives the exact set of documents that load,
  `JournalDocument.CommentedJournalLoads` an input.
- A manifest entry for a directory is inspected without following its last component only. A list can therefore
  name a path through a link that it does not declare: `ManifestChecks.ListedAreTheObjects` gives the condition,
  `ManifestLinks.UndeclaredLinkPasses` the tree and the list.
- When reading the status pipe of the helper fails, the parent closes its signal pipe and keeps its lock, while the
  started helper proceeds and unlocks the shared description: `Handoffs.GapIffStatusReadFails` gives the exact
  condition, `Handoffs.StatusReadFailureOpensGap` the run.
- A repair that cannot read `state.txt` moves it aside before it creates the new one from the packages alone. Cut in
  between it leaves no state, and when it completes the defaults are gone: `Sessions.ShownIsSound` shows that this is
  the only world outside the invariant, `Sessions.CutUnreadableRepair` and `Sessions.UnreadableStateIsLost` that it
  happens.
- Deleting a tree synchronises no directory that holds its name. Where directories are durable one by one, a recovery
  that deleted an unrecorded package may see it come back with the journal gone: `DirectoryLosses.LossIsHarmlessIff`
  gives the exact condition, `DirectoryLosses.RepairAfterLoss` what repair then makes of it.
- The lexical check of link targets does not keep links inside, because a target may run through another link. It does
  together with the check that every link resolves to a regular file of the package:
  `LinkResolution.LexicalCheckAlone` and `LinkResolution.NothingLeadsOutside`.


## Model

| member | source | states |
|---|---|---|
| `Versions.CompareNumericText` | src/package_selector.c:156-173 | The digit-text comparison has the sign of the difference of the two numbers, for texts of any length. |
| `Versions.SameLengthOrder` | src/package_selector.c:169-172 | On digit texts of one length, byte order is numeric order. |
| `Versions.ParseNumericDotted` | src/package_selector.c:75-105 | Accepts exactly the dotted sequences of canonical decimal numerals. |
| `Versions.ParsePackageVersion` | src/package_selector.c:121-142 | Accepts exactly the version grammar, and finds where the revision marker stands. |
| `Versions.CompareBaseVersions` | src/package_selector.c:175-202 | Comparing two bases segment by segment is lexicographic order on the sequences of numbers they denote. |
| `Versions.ReleaseCompare` | src/package_selector.c:204-227 | Refuses anything but two accepted versions, tells the empty text apart, and otherwise says which is older: the one whose numbers come first, by the first number that differs or by ending there, or with equal numbers the one of the smaller revision, a missing one lowest. |
| `Versions.CmpIsAge` | src/package_selector.c:204-227 | With equal bases the smaller revision is older, and otherwise exactly the base that is a proper prefix of the other or has the smaller number where they first differ. |
| `Versions.RevisionsFollow` | src/package_selector.c:217-219 | A revision is newer than the release it revises and than every earlier revision of it. |
| `Versions.RenderKeyOf` | src/package_selector.c:121-142 | Every accepted text is the rendering of the numbers it denotes, so a version has one spelling. |
| `Versions.KeyOfRender` | src/package_selector.c:121-142 | Every sequence of numbers with a revision whose rendering fits is an accepted text and denotes just those numbers. |
| `Versions.VersionExample` | src/package_selector.c:121-142 | 23.1.0-rev4 is read as the numbers 23, 1 and 0 with revision 4, and 23.1.0 as the same without one. |
| `Versions.CmpZero` | src/package_selector.c:204-227 | Comparison is 0 for equal texts only. |
| `Versions.CmpSwap` | src/package_selector.c:204-227 | Swapping the operands negates the result. |
| `Versions.CmpTransitive` | src/package_selector.c:204-227 | The order is transitive, and equal ends make all three equal. |
| `States.CupState.Validate` | src/state.c:84-123 | Accepts exactly the arrays with distinct valid installed identities, one default per scope, every default installed and no more defaults than slots. |
| `States.CupState.AddInstalled` | src/state.c:372-382 | Adds one identity and keeps the state valid; an invalid or already installed identity is told apart and changes nothing. |
| `States.CupState.RemoveInstalled` | src/state.c:384-396 | Removes one identity, keeps the order of the rest and the state valid; refuses while it is a default. |
| `States.CupState.GetDefault` | src/state.c:398-403 | Gives the default of the scope exactly when there is one. |
| `States.CupState.GetToolReference` | src/state.c:406-455 | Gives an installed release of the tool in the scope: the default of the scope if it is of the tool, and otherwise one that every other installed release of the tool is older than; and nothing only when there is none. |
| `States.ToolReferenceUnique` | src/state.c:406-455 | A tool and scope have at most one such reference. |
| `States.CupState.SetDefault` | src/state.c:457-472 | Replaces or appends the default of one scope; the array reports full only when some default is of another host. |
| `States.CupState.ClearDefault` | src/state.c:474-484 | Shifting the later defaults down removes exactly the default of one scope. |
| `States.CupState.ClearMatchingDefault` | src/state.c:486-493 | Removes the default of the scope only when it is that very identity, after which no default names it. |
| `States.RoomForEveryScope` | include/domain_registry.h:39-46 | With all defaults on one host, a scope that has none always finds a free slot: components times targets. |
| `States.ValidListsAreWellFormed` | src/state.c:84-123 | Valid arrays mean a well-formed document: valid identities, each default installed and filed under its own scope. |
| `States.RunEdits` | src/state.c:372-493 | Any sequence of state operations, failing or not, leaves the arrays meaning what the edits make of the set and the map, answers each edit as its state at that point calls for, keeps the state valid, and on one host never reports the defaults full. |
| `StateDocument.IdCmpIsOrder` | src/state.c:287-300 | On one host the sort order of records is total and separates all identities. |
| `StateDocument.IdCmpByField` | src/state.c:287-300 | Records are ordered by the first field that differs among component, target and tool, byte by byte, and then by the age of the version. |
| `StateDocument.SortedIsUnique` | src/state.c:352-355 | Sorted lists with the same members are the same list, so any correct sort gives the same file. |
| `StateDocument.SortSorts` | src/state.c:352-355 | Sorting keeps the members and puts them in ascending order. |
| `StateDocument.RecordRoundTrip` | src/state.c:183-226 | A written record is one printable line within its buffer, no comment, and parses back as its identity and kind. |
| `StateReadings.RecordSays` | src/state.c:303-323 | A record is written as kind, component, target, tool and version around a dot, a dot, an equals sign and an at sign. |
| `StateReadings.ParsedIsRecord` | src/state.c:183-226 | A line is read as a record only if, without its blanks, it is the text of that record. |
| `StateReadings.LoadedIsWritten` | src/state.c:228-285 | A state file that loads says its format first and then, up to blanks and skipped lines, just the records of the loaded lists in their order, valid and of this host. |
| `StateFiles.RoundTrip` | src/state.c:228-274 | Whatever is written within the size limit loads as the same lists in sorted order, hence the same installed set and default map. |
| `StateFiles.BytesDependOnMeaning` | src/state.c:325-365 | Two states with the same installed set and default map are written as the same bytes. |
| `StateFiles.BytesIdentifyMeaning` | src/state.c:325-365 | States with different sets or maps are written as different bytes. |
| `StateFiles.MeasuredSize` | src/state.c:127-160 | The size summed over the unsorted arrays is the length of the sorted file. |
| `StateFiles.MeasurePersistent` | src/state.c:127-160 | Succeeds exactly when the state is valid and its file at most 4 MiB, and then gives the exact length. |
| `StateFiles.WriteStateFile` | src/state.c:302-323 | The writer produces the header and the records of both lists in order. |
| `StateFiles.SerializeForSave` | src/state.c:335-355 | What a save hands to the file system loads back as the state; invalid, oversized and foreign-host states are refused, and nothing else is. |
| `StateFiles.StorableIff` | src/state.c:335-344 | The arrays can be saved exactly when the set and map they mean are valid, of this host, and their file at most 4 MiB: a condition on the meaning alone. |
| `StateFiles.StorableShrinks` | src/state.c:127-160 | Dropping records or defaults never makes a state too large to save. |
| `StateFiles.ParseStateLine` | src/state.c:205-226 | One record extends the candidate, or is refused as malformed, repeated, of a taken scope or beyond the slots. |
| `StateFiles.LoadStatePath` | src/state.c:228-274 | The loader accepts the whole document or none of it, as the line-by-line definition says, with an oversized file told apart. |
| `Documents.DocumentReader.ReadRawLine` | src/text.c:235-267 | Consumes exactly one line, refuses one that does not fit the buffer, and counts it either way. |
| `Documents.DocumentReader.ReadLine` | src/text.c:269-295 | Gives the next line with content, trimmed; skipped lines are counted. |
| `Documents.LinesOfFlatten` | src/text.c:211-267 | Reading the lines of a written document gives back the lines written. |
| `Documents.FlattenOfLines` | src/text.c:211-267 | Writing the lines read from a document gives back its bytes. |
| `Documents.FieldOfWritten` | src/text.c:298-332 | A key and a value without blanks, written around an equals sign, are read as that key and value. |
| `Documents.TrimIs` | src/text.c:45-63 | Trimming takes away the blanks and tabs at both ends, and all of them. |
| `JournalDocument.Begin` | src/package_transaction.c:113-151 | Writes a journal exactly for a valid identity and a staging path whose name repeats operation and identity, and what it writes loads back and is classified as a package journal. |
| `JournalDocument.RoundTrip` | src/package_transaction.c:70-84 | A written journal loads as the same operation, identity and temporary name. |
| `JournalDocument.RenderSays` | src/package_transaction.c:70-88 | What begin writes is the seven fields in their order, one to a line. |
| `JournalDocument.TemporaryNameSays` | src/package_transaction.c:46-68 | A valid temporary name is a safe segment that says the operation, the package and something more. |
| `JournalDocument.LoadIff` | src/package_transaction.c:153-262 | Exactly which documents load: the seven written lines, in which the format line alone may be replaced by a line without content; no missing, extra or reordered key otherwise. |
| `JournalDocument.FormatLineMayBeAComment` | src/runtime_journal.c:87-116 | For every valid transaction, the document with a comment in place of the format line still loads, although it is not what is written. |
| `JournalDocument.CommentedJournalLoads` | src/runtime_journal.c:87-116 | A concrete journal outside the documented format that loads. |
| `JournalDocument.GeneratedNameIsValid` | src/layout.c:1339-1358 | Every name that staging generates for a valid identity is accepted by begin and by the loader. |
| `JournalDocument.LoadedIsPackageJournal` | src/runtime_journal.c:257-307 | Whatever loads as a package transaction is classified as a package journal. |
| `JournalDocument.OperationDecides` | src/runtime_journal.c:257-281 | The value of the operation field alone decides the kind of a journal. |
| `JournalDocument.ReadMeaning` | src/runtime_journal.c:87-116 | Reading succeeds exactly when there are seven lines and each gives the value of the key of its position. |
| `JournalDocument.LoadTransaction` | src/package_transaction.c:211-262 | The reader loop over positions computes the loader's definition, for every byte string. |
| `Disks.Disk.MoveCommon` | src/system_posix.c:944-1124 | A rename that reports durable is durable; not applied means that both ends are as before and, if the rename had been visible, that its undo is durable; every world shown is the old or the renamed one; without faults it succeeds exactly when allowed. |
| `Disks.Disk.RemoveTree` | src/system_posix.c:1389-1499 | Removal only ever takes entries away below one path, may stop anywhere, and success means the path is gone. |
| `Disks.Disk.ClearJournal` | src/runtime_journal.c:309-323 | Removes only the observed journal; success means its removal is durable. |
| `Disks.Disk.PublishFile` | src/filesystem.c:93-161 | Success means the new file is durable, Commit that it may be visible, anything else that the destination is unchanged and, if the file had been visible, durably so; an identity-bound replacement displaces nothing but the observed file; without faults it succeeds exactly when the destination allows it. |
| `Disks.Disk.PublishJournal` | src/runtime_journal.c:145-230 | Creates the journal only where there is none, with the identity of the new file on success; a plain failure leaves none that a power loss could bring back. |
| `Recovery.Recover` | src/package_transaction.c:416-496 | Refuses, touching nothing, exactly when the disk is not recoverable; otherwise every world it ever shows leads to the same end, with every recorded invalid package in place or under a fresh recovery name and earlier evidence unchanged; success leaves that end durably, the journal and the staged path gone; the package of the journal is then absent if the state does not record it, and otherwise the valid copy, in place or from staging. |
| `Recovery.RecoverInstalledPackage` | src/package_transaction.c:374-401 | For a recorded package a valid copy ends up in place: the canonical one if valid, else the staged one, an invalid canonical object being moved aside and kept. |
| `Recovery.RecoverAbsentPackage` | src/package_transaction.c:403-414 | For an unrecorded package both paths are deleted, each step on the way to the same end. |
| `Recovery.PreserveInvalidInstall` | src/package_transaction.c:337-372 | An object in the way is renamed to a fresh recovery path, never deleted. |
| `Recovery.SaveState` | src/state.c:325-365 | Replaces exactly the observed state file; every world shown has the old or the new state, plain failure leaves the disk durably as it was, and without faults it succeeds exactly for a valid state of this host whose file fits, over the observed file. |
| `Recovery.SettleIsConsistent` | src/package_transaction.c:445-495 | Recovering any world of the invariant leaves a consistent one with the same state. |
| `Recovery.SettleFollowsState` | src/package_transaction.c:445-495 | The end of a recovery, path by path: state and other packages untouched, journal and staging gone, and of the package what the state calls for. |
| `Recovery.LeadsKeepsInv` | src/package_transaction.c:311-403 | Every step of a recovery keeps the invariant over all identities. |
| `Installs.InstallOperation.Execute` | src/package_install.c:559-600 | From any disk: without a valid state or with a pending journal it refuses and shows nothing; every world it shows stays within its transaction, and its state is the old one or has the package added, with every other scope unchanged, and in its own scope the old default, the package if this is an update whose planned default that still was, or the package if nothing was installed there; success is that new state, durably; after a plain failure nothing has happened, now or in any world a power loss could bring back; an update whose reference changed touches nothing and is the only case of NotInstalled; and where nothing fails it succeeds exactly when the plan is up to date, the package installed already (for an update) or its extracted tree valid, and the new state can be saved. |
| `Installs.InstallOperation.AdmitInstall` | src/package_install.c:103-209 | Admission succeeds only without a pending journal, from the loaded state, with the planned reference unchanged and state and disk agreeing on the package. |
| `Installs.CompareReference` | src/package_install.c:129-183 | Looking the tool reference up in the arrays and comparing it with the plan succeeds exactly when the planned reference and default are still those of the state. |
| `Installs.InstallOperation.ValidateUpdateReference` | src/package_install.c:129-183 | An update proceeds exactly when its reference and default are still those it was planned for. |
| `Installs.InstallOperation.CheckExistingInstall` | src/package_install.c:185-209 | State and disk must agree on the package; where nothing fails only an update may find it installed. |
| `Installs.InstallOperation.PrepareDefaultChange` | src/package_install.c:362-401 | A default is made only for a new package in a scope that was empty, and moved exactly when the planned default is still the default and is another release. |
| `Installs.GoalGains` | src/package_install.c:362-401 | Installing adds the package, changes no other scope, moves the default of an update that is planned for it, makes one where nothing was installed, and keeps any other. |
| `Installs.FreshInstallIsPossible` | src/package_install.c:294-445 | Nothing but a failing disk stops a new package with a valid tree, or an update of unchanged plan to what is installed, if the new state can be stored. |
| `Installs.InstallOperation.CommitInstall` | src/package_install.c:447-518 | Journal, rename, state and clearing: success leaves the goal durable and no journal, and any earlier failure can still be undone. |
| `Installs.InstallOperation.RollbackInstall` | src/package_install.c:520-547 | A rollback that succeeds takes package and staging away and forgets the journal for good; one that stops keeps what recovery needs. |
| `Installs.InstallOperation.ExtractPackage` | src/package_install.c:294-359 | Only a fully valid extracted tree goes on; extraction touches private staging alone. |
| `Installs.InstallOperation.CommitExistingUpdate` | src/package_install.c:437-445 | An update to an installed release saves only a default that actually moves. |
| `Installs.ShapeIsWithin` | src/package_install.c:447-547 | Every disk shape an install can show has valid state, agrees about all other packages, and recovers the old package while the old state stands. |
| `Removals.RemoveOperation.Execute` | src/command_remove.c:421-453 | From any disk with a valid state that records the package and something at its path: every world shown is the old package in place or in staging, or its durable absence, and recovery can follow a cut exactly as RecoverableIfValid says; success means the package is gone from state and disk; after a plain failure nothing has happened, now or after a power loss; where nothing fails it succeeds exactly when the package can be renamed and the new state saved; and in every world shown the state is the old one or has lost the package and, only where it was that package, a default. |
| `Removals.RemoveOperation.RequirePresent` | src/installed_package.c:32-65 | The package must be in state and on disk; where nothing fails that is enough, valid or not. |
| `Removals.RemoveOperation.Admit` | src/command_context.c:117-130 | A removal begins only without a pending journal, from a valid state on disk, with the package recorded and present; the validity of its tree is not asked for. |
| `Removals.RemoveOperation.CommitRemoval` | src/command_remove.c:315-386 | The state replacement is the commit point; after it deletion and journal are cleanup, and before it everything can be undone. |
| `Removals.RemoveOperation.StageRemoval` | src/command_remove.c:286-312 | The canonical package is renamed into staging, or nothing has moved; without faults this fails for special files only. |
| `Removals.RemoveOperation.RollbackRemoval` | src/command_remove.c:389-410 | A rollback that succeeds puts the package back and forgets the journal, durably. |
| `Removals.RemoveShapeIsWithin` | src/command_remove.c:286-410 | Every disk shape of a removal on a consistent disk recovers either the old package or its absence, as state says. |
| `Removals.ShapeRecoverableIff` | src/package_transaction.c:374-414 | Exactly which cuts of a removal recovery can follow: while the journal stands beside the old state, those of a package whose tree was valid; at every other point, all. |
| `Removals.RemoveGoalIsStorable` | src/command_remove.c:331-339 | A state that could be saved can also be saved without the package and its default. |
| `Removals.RemoveGoalForgets` | src/command_remove.c:325-340 | The new state records all packages but the one removed, and every scope keeps the default it had unless that was the package. |
| `Removals.ResolveUniqueInstalledRelease` | src/command_remove.c:87-155 | Without a release the one installed release of the tool is meant; none and several are told apart. |
| `Sessions.SetDefault` | src/command_default.c:20-101 | From any disk: only an installed and valid package becomes default, in state.txt nothing changes but the default of its scope, and nothing else on disk; a disk without valid state or with a pending journal is refused, and where nothing fails it succeeds exactly when the package is installed and the new state can be saved. |
| `Sessions.InstallCutAnywhere` | src/package_install.c:447-547 | An install cut at any point, or losing power after it returned, and recovered through any number of further cuts: the run is a lawful one of that command, what survives is a world of its own log no older than what was durable, and what is left is just what one uncut recovery makes of that world, so it is consistent, all or nothing, with nothing else touched; if it had returned, success is still there, and after a plain failure state and packages are what they were. |
| `Sessions.RemoveCutAnywhere` | src/command_remove.c:286-410 | The same for a removal. |
| `Sessions.RecoverThroughCuts` | src/package_transaction.c:416-496 | From any recoverable disk, however often recovery is cut, whatever is left leads to the same end with all evidence kept, and the run that succeeds leaves just what one uncut recovery of the first disk leaves, up to evidence moved aside; without faults it does succeed. |
| `Sessions.StateDecidesOutcome` | src/package_transaction.c:445-495 | Two disks of one transaction with the same state recover to the same state and the same set of packages, whatever else differs. |
| `Sessions.LeadsKeepsWithin` | src/package_transaction.c:311-403 | Recovery never leaves the transaction it recovers. |
| `Sessions.CutRemovalOfInvalid` | src/command_remove.c:240-244 | For every recorded package whose tree is not valid, its removal succeeds, and yet can be cut so that afterwards recovery and repair refuse although nothing fails. |
| `Sessions.CorruptPackageBlocksRecovery` | src/package_transaction.c:374-401 | A concrete disk with one such package, on which removal, power loss, recovery and repair go just that way. |
| `Sessions.SettledIsConsistent` | src/package_transaction.c:445-495 | A disk of the invariant that has been recovered is consistent and has the same state. |
| `Sessions.RunCommand` | src/command_context.c:117-130 | Each locked command, repair included, shows only the worlds its kind may show; success means the goal of the command, durably if the state changed; after a plain failure of one that does not recover nothing has happened; and where nothing fails it succeeds exactly when it is possible. |
| `Sessions.ShownIsSound` | src/command_repair.c:568-608 | Every world any command shows is of the invariant, except the moment without state of a repair that could not read it, when every package is still one that a scan finds. |
| `Sessions.CutUnreadableRepair` | src/command_repair.c:641-676 | For every consistent disk: a repair that cannot read the state completes, and yet can be cut so that there is no state and commands that need one refuse. |
| `Sessions.UnreadableStateIsLost` | src/command_repair.c:592-608 | A concrete disk with one such package, a default, on which it goes just that way. |
| `Sessions.RunSession` | src/runtime_journal.c:325-350 | Over every sequence of locked commands and power losses the log is accounted for moment by moment, each a lawful run of its command from what the one before left; in every world ever shown state and disk agree about every identity except the one a journal names, and recovery always applies; the one exception is a disk that a repair has left without state because it could not read it, and without such a repair there is none. |
| `Sessions.AcknowledgedStays` | src/state.c:353-364 | A change of the state that a command has acknowledged is never lost: after any later commands and power losses the disk is, up to what is left in staging, the one acknowledged or one that a later command showed. |
| `Updates.BuildPlan` | src/command_update.c:250-282 | The plan has one item per installed tool, host and target that the filter matches; with an accepted catalog its action is Newer, Equal or Ahead as the usable stable record of the tool is newer than, equal to or older than the reference, and NoStable exactly when there is no such record. |
| `Updates.MakeItem` | src/command_update.c:164-247 | An item is built from the tool's reference, its being the default, and the stable version the catalog resolves. |
| `Updates.PlannedIsJudged` | src/command_update.c:210-233 | In an accepted catalog the action of an item is decided by the age of the usable stable record and of the reference, and by nothing else. |
| `Updates.GoalKeeps` | src/package_install.c:362-401 | Carried out at any later state with an unchanged reference, an item keeps every release and adds its target, moves the default of its scope exactly if the planned release was that, only to a strictly newer version of the same tool, and keeps every other; an equal item changes nothing. |
| `Updates.WithinKeeps` | src/package_install.c:447-547 | The same holds in every world shown on the way, failures included. |
| `Updates.ExecuteItem` | src/package_install.c:622-646 | Executing one item from whatever state the disk is in by then is one part of the log and keeps what an update must keep; without a valid state it fails and shows nothing; if its reference changed it shows nothing, and NotInstalled is the answer to that alone; success is the goal at the state it found, and comes, where nothing fails, exactly when that can be reached. |
| `Updates.ExecutePlan` | src/command_update.c:400-450 | The loop attempts the equal and newer items in plan order with any other commands in between; the turns are successive parts of the log, each starting from the world just before it; it goes on after success and after an item whose reference is gone, stops at the first other failure and returns it; every turn keeps what an update must keep; success means that every item whose stable record is its reference or newer was attempted, and if nothing else ran, that every tool of the plan with a newer stable has it, as default where the planned release was one. |
| `Updates.AdvancedGrows` | src/command_update.c:400-450 | Carrying out one item of a snapshot leaves what others did done and every other item the reference it was planned for. |
| `Catalogs.PackageCatalog.Validate` | src/package_catalog.c:401-460 | Accepts exactly the well-shaped, classifiable record sets without duplicate versions or stables in a tuple and with every usable stable maximal, and then each usability flag is right. |
| `Catalogs.IsWellShaped` | src/package_catalog.c:411-425 | Every required field once, and complete artifacts of distinct formats. |
| `Catalogs.RevisedIff` | src/package_catalog.c:372-384 | A version differs from its base text exactly when it denotes a revision. |
| `Catalogs.AcceptableIffBag` | src/package_catalog.c:401-460 | Acceptance can be stated on the bag of records, without any order. |
| `Catalogs.AcceptanceIgnoresOrder` | src/package_catalog.c:401-460 | Reordering the records never changes acceptance. |
| `Catalogs.AcceptableIff` | src/package_catalog.c:372-460 | What is accepted: complete records, of which those of a known tool, platform and version carry a reason exactly for a revision, no version of a tuple twice, no two stables of a tuple, and no usable stable older than another usable record of its tuple. |
| `Catalogs.StableIsUniqueAndMaximal` | src/package_catalog.c:440-459 | In an accepted catalog the usable stable of a tuple is unique, is what the query answers, and is newer than every other usable version. |
| `Catalogs.UnusableStableSuppressesFallback` | src/package_catalog.c:440-446 | A stable record this program cannot use is not replaced by an older usable one. |
| `Catalogs.FindReleaseIff` | src/package_catalog.c:658-680 | In an accepted catalog a tuple and version pick exactly the one matching usable record. |
| `Catalogs.FindsUsable` | src/package_catalog.c:360-399 | In an accepted catalog a record is found by its tuple and version exactly if it is of a known tool, platforms and version, honours the version contract and has a tar.xz, tar.gz or zip archive. |
| `Catalogs.QueriesIgnoreOrder` | src/package_catalog.c:658-705 | Lookup by version, stable resolution and presence have the same answers in any order of records. |
| `Catalogs.PackageCatalog.Find` | src/package_catalog.c:658-680 | The lookup loop gives the first matching record or none. |
| `Catalogs.PackageCatalog.Stable` | src/package_catalog.c:682-705 | The stable loop gives the version of the first usable stable or none. |
| `Refreshes.CatalogStore.CommitRemote` | src/catalog_refresh.c:60-134 | A response is installed only over the exact snapshot it was fetched for and only with a greater revision, and then exactly it is; every other case is told apart and changes nothing. |
| `Refreshes.CatalogStore.RunRefreshers` | src/catalog_refresh.c:60-134 | Over any interleaving of any number of refreshers and power losses the history is accounted for event by event: exactly the winning swaps install, each its own bytes over the snapshot that process held, losses take back what is not durable and nothing else, revisions strictly increase, and what was durable stays installed. |
| `Refreshes.CatalogStore.RefreshExisting` | src/catalog_refresh.c:136-212 | At most three attempts, each from a new snapshot, repeated only when the catalog was replaced meanwhile; an update is the installation of the last response over the last snapshot, and with a greater revision, no fault and nobody else at work the first attempt makes it; giving up means that others installed at least three catalogs. |
| `Refreshes.RevisionIdentifiesContent` | src/catalog_refresh.c:98-113 | One revision never gets two contents, and no content is installed twice. |
| `Refreshes.SnapshotIsCurrent` | src/catalog_refresh.c:35-39 | A snapshot that matches the installed catalog was taken of it, even if file identities are reused. |
| `Repairs.ReconcileState` | src/command_repair.c:486-513 | Leaves records of other hosts and exactly the scanned packages, every default whose package survives, and a valid state; the change flag says whether anything changed. |
| `Repairs.RemoveStaleInstalledEntries` | src/command_repair.c:381-423 | Removes exactly the records of this host that were not found, with the defaults that named them, and never fails on a valid state. |
| `Repairs.AdoptScannedPackages` | src/command_repair.c:425-454 | Adds exactly the scanned packages not yet recorded; only an invalid identity is refused. |
| `Repairs.RemoveStaleDefaults` | src/command_repair.c:456-484 | Drops exactly the defaults of this host that are not installed. |
| `Repairs.ReconciledTwice` | src/command_repair.c:486-513 | A second reconciliation with the same scan changes nothing. |
| `Repairs.NothingToReconcile` | src/command_repair.c:486-513 | Nothing changes exactly when state lists, for this host, just the packages found. |
| `Repairs.ConsistentNeedsNoRepair` | src/command_repair.c:486-513 | On a consistent disk a complete scan leaves state alone. |
| `Repairs.ReconciledAgrees` | src/command_repair.c:610-639 | Once every invalid package is moved aside, the reconciled state agrees with the disk about every identity of this host. |
| `RepairCommands.RepairOperation.Execute` | src/command_repair.c:740-775 | Repair of packages and state from any disk, whether or not it can read the state: it refuses with recovery, touching nothing; otherwise every world it shows, also on a failing disk, leads where recovery leads or is the recovered root with invalid packages moved aside, never deleted, and with the old state or the one the packages call for; success leaves that state, which records of this host just the valid packages, keeps the records of others and exactly the defaults whose package is still recorded, and agreement about every package of this host, after a moment without state if the old one was unusable; where nothing fails it succeeds exactly when recovery does, issues and size are within their limits and the new state can be saved. |
| `RepairCommands.AimRestates` | src/command_repair.c:611-621 | The state that repair saves says just the valid packages of this host, the records of others, and the defaults whose package is among these; nothing of a state it cannot use. |
| `RepairCommands.RepairOperation.PlanRepair` | src/command_repair.c:556-621 | The whole new state is computed and measured before anything is touched; a state that is missing, invalid or unreadable counts as empty. |
| `RepairCommands.RepairOperation.Quarantine` | src/command_repair.c:623-639 | Every invalid package that can be renamed is moved to a fresh recovery path; special files are left. |
| `RepairCommands.RepairOperation.SavePlanned` | src/command_repair.c:663-676 | The planned state replaces the loaded one or is created where there is none; an unchanged one is left alone. |
| `RepairCommands.RepairThroughCuts` | src/command_repair.c:740-775 | Repair cut any number of times on any disk, each run reading the state or not, and failing or not: whatever is left keeps every package that was valid and every invalid one somewhere, and the run that completes leaves agreement about every package; if every run could read the state it is the state the first disk called for, if the last could not the packages found; and where nothing fails it completes if one uncut repair would have. |
| `RepairCommands.HealedIsConsistent` | src/command_repair.c:740-775 | Where only packages of this host that can be moved were found and recorded, the whole disk is consistent after repair, whether or not the state could be read. |
| `RepairCommands.ConsistentIsTarget` | src/command_repair.c:610-639 | On a consistent disk repair has nothing to move and no other state to save. |
| `RepairCommands.RepairKeeps` | src/command_repair.c:556-676 | Every world that repair of a consistent disk, or of one whose state was lost, shows is one of these two, and with a readable state it is consistent with the same state. |
| `DirectoryLosses.LossIsHarmlessIff` | src/package_transaction.c:403-414 | Where each directory is durable on its own, what a power loss may leave after a successful recovery is always consistent if and only if recovery had no unrecorded package to delete. |
| `DirectoryLosses.OthersAgree` | src/package_transaction.c:445-495 | Whatever comes back, the state is the recovered one, nothing is pending and every other identity agrees. |
| `DirectoryLosses.RepairAfterLoss` | src/command_repair.c:740-775 | A finished repair makes such a disk consistent again: it records the returned package if its tree is complete, and leaves the state as it was otherwise. |
| `PathTables.PathTable.Register` | src/package_extract.c:143-213 | An entry is accepted exactly when the sequence so far stays legal with it, and the table is then the table of the longer sequence. |
| `PathTables.PathTable.Admit` | src/package_extract.c:150-184 | The checks before any addition find exactly the collisions. |
| `PathTables.PathTable.Insert` | src/package_extract.c:186-212 | The additions fail only when the closure of paths and ancestors does not fit the budget. |
| `PathTables.PathTable.Add` | src/package_extract.c:111-139 | A record is added exactly when the table with it fits the budget. |
| `PathTables.RegisterAll` | src/package_extract.c:143-213 | A whole archive is accepted exactly when its entries are legal: nonempty paths that fit, no two of which are the same but for the case of letters, no file or link that is an ancestor of another path but for case, and a table within its budget; the table is then that of the entries. |
| `PathTables.LegalIff` | src/package_extract.c:67-83 | Legality in terms of the paths themselves, character by character, instead of their folded keys. |
| `PathTables.CostBounds` | src/package_extract.c:111-139 | Keys of bounded length have a bounded cost, overhead and terminator included. |
| `Paths.FoldedEqualIff` | src/package_extract.c:67-83 | Folding makes two texts equal exactly when they agree but for upper and lower ASCII letters. |
| `Paths.AliasIsUnsafe` | src/path.c:222-275 | A platform alias is no safe segment in any case and with any extension. |
| `LinkResolution.SafeRelativeIff` | src/path.c:334-365 | A safe relative path is safe segments joined by single slashes, and every such text is one. |
| `PathTables.OrderDoesNotMatter` | src/package_extract.c:111-213 | Any reordering of the entries gets the same verdict and leaves the same table. |
| `PathTables.LegalStep` | src/package_extract.c:143-213 | A legal sequence stays legal exactly when the new entry is usable, collides with nothing and fits. |
| `PathTables.CollidesIff` | src/package_extract.c:163-184 | The table alone decides whether a new entry collides with any earlier one. |
| `SymlinkTargets.CounterIsStack` | src/package_extract.c:304-323 | The depth counter accepts exactly the walks that, from any directory the package may be unpacked in, never leave it, never go deeper than 64 and use safe names. |
| `SymlinkTargets.IdleSegments` | src/package_extract.c:304-323 | Empty and single-dot segments change nothing, wherever they stand. |
| `SymlinkTargets.ValidateSymlinkTarget` | src/package_extract.c:282-324 | A target is accepted exactly when it is relative, fits, and following it from the link's directory stays within the package after every segment. |
| `LinkResolution.NothingLeadsOutside` | src/system_posix.c:1899-1918 | If every link of a package passed the lexical check and resolves to a regular file below its root, then no path that stays inside lexically leads outside, whatever links it meets. |
| `LinkResolution.LexicalCheckAlone` | src/package_extract.c:304-323 | Two links that both pass the lexical check, one of which leads outside; the resolution check refuses them. |
| `LinkResolution.RunsIntoFile` | src/package_manifest.c:286-297 | A target that resolves to a regular file leads nowhere when anything follows it, so no link that resolves runs through another. |
| `LinkResolution.CountedSegments` | src/package_extract.c:293-302 | The segments that the check counts for a link are those of its directory followed by those of its target. |
| `Manifests.CountTree` | src/package_manifest.c:344-401 | The recursive count is the number of objects other than the manifest, and fails exactly on special files, paths that do not fit and excessive depth. |
| `Manifests.PathsAreDistinct` | src/package_manifest.c:344-401 | No two objects of a tree have the same path. |
| `Manifests.AncestorsAreDirectories` | src/package_manifest.c:344-401 | Whatever stands before a slash of an object's path is a directory of the tree. |
| `ManifestChecks.SplitIff` | src/package_manifest.c:88-125 | A line splits as an entry exactly when it is four nonempty tab-free fields joined by tabs. |
| `ManifestChecks.ManifestPathKeys.Add` | src/package_manifest.c:423-470 | A folded key is added exactly while array growth and text stay within their limits. |
| `ManifestTexts.CapacityIs` | src/package_manifest.c:439-446 | The array of keys holds 64 and is doubled whenever it is full. |
| `ManifestTexts.KeyBytesAre` | src/package_manifest.c:447-468 | The bytes counted are those of the array and of the texts in it. |
| `ManifestChecks.ManifestPathKeys.HaveCollision` | src/package_manifest.c:472-485 | Sorting and comparing neighbours finds exactly the repeated keys. |
| `ManifestChecks.CheckLine` | src/package_manifest.c:545-583 | One line passes exactly when it splits, is sorted after the previous path, fits the key limits and describes what inspection reports. |
| `ManifestChecks.VerifyManifest` | src/package_manifest.c:487-604 | Verification succeeds exactly when all lines pass, no two paths differ in nothing but the case of letters, there is at least one line and the tree has as many objects; it fails whenever two listed paths are the same but for case. |
| `ManifestChecks.FoldedCollisionIff` | src/package_manifest.c:423-485 | Folded keys repeat exactly when two listed paths differ in case alone. |
| `ManifestChecks.ListedAreTheObjects` | src/package_manifest.c:531-596 | A passed verification lists exactly the objects of the tree if and only if no listed path runs through a link. |
| `ManifestChecks.ManifestPinsTree` | src/package_manifest.c:300-342 | Then every object has exactly one line, which states its kind, mode and digest. |
| `ManifestChecks.ObjectsAreDirect` | src/package_manifest.c:228-251 | An object of the tree is never reached through a link. |
| `ManifestTexts.ManifestOfTreePasses` | src/package_manifest.c:487-604 | The manifest of a tree, a line for each object in the order of the paths, passes. |
| `ManifestTexts.PassedIsManifestOfTree` | src/package_manifest.c:300-342 | And what passes is the manifest of the tree, line by line, unless it names a path through a link. |
| `ManifestTexts.InventoryIff` | src/package_manifest.c:344-401 | The counted objects are just the nodes that can be reached name by name, the manifest excepted. |
| `ManifestTexts.CountableIff` | src/package_manifest.c:344-401 | The counter accepts a tree exactly when every path fits, nothing special stands in it, and every directory has fewer than 64 directories above it. |
| `ManifestLinks.UndeclaredLinkPasses` | src/package_manifest.c:228-251 | A concrete tree and list for which every check passes although the list names a path through an undeclared link and lacks the link itself. |
| `Handoffs.HandoffHasNoGap` | src/system_posix.c:430-578 | In every order of fork, failure, exit and helper steps, while parent or helper has an unreleased reference nobody else has the lock or can get it. |
| `Handoffs.GapIffStatusReadFails` | src/system_posix.c:553-569 | Exactly when that is safe: a step keeps all later harmless runs free of gaps if and only if it is not a failed status read that leaves a child still on its way to run the helper. |
| `Handoffs.GivenUpOpensGap` | src/system_posix.c:560-569 | From every state in which the parent has given up on a child that is still on its way, the steps after which another process has the lock while the parent still claims it. |
| `Handoffs.StatusReadFailureOpensGap` | src/system_posix.c:536-569 | The whole failing run from a parent that has just acquired the lock: fork, failed status read, helper started all the same, lock lost. |
| `Handoffs.StepKeepsInv` | src/system_posix.c:430-663 | Every harmless step keeps the relation between descriptors, pipe ends, claims and locks. |
| `Handoffs.HandoffCanSucceed` | src/system_posix.c:430-663 | From every state in which the parent holds the lock the handoff can be made, to a helper that has the authority alone. |
| `Handoffs.FailedStartReturns` | src/system_posix.c:536-569 | A child that cannot run the helper reports it, and the parent alone has the lock again. |
| `Handoffs.LockIsFreeAfterwards` | src/system_posix.c:2234-2250 | Once the helper has released the authority, any process can take the lock in either mode. |
| `Handoffs.ReadersShare` | src/system_posix.c:2205-2227 | While one reader has the lock another can share it, and nobody can have it alone. |
| `Handoffs.ParentReleaseIsNoOp` | src/system_posix.c:2234-2244 | After the handoff a release by the parent changes nothing. |
| `Handoffs.HelperKeepsAuthority` | src/system_posix.c:611-663 | Once the helper runs, authority ends only by its own release or exit. |
| `Handoffs.NobodyElseAcquires` | src/system_posix.c:2173-2227 | A nonblocking acquire fails while the shared description is locked exclusively. |

## Left out

- Network transfer, TLS, URL parsing, libarchive and the SHA-256 backend: a download is an arbitrary content, an archive a sequence of entries, a digest stands for the bytes it was taken of.
- Argument parsing, help text, diagnostics and all printing.
- Wrappers and tool preferences: applying wrapper plans is a step that may fail and changes nothing the model follows.
- Self-update, bootstrap, uninstall and generation commit; their journals appear only as kinds in the classification of a journal.
- Windows branches; paths, locks and links are those of a POSIX host.
- Permission bits, umask, memory allocation failure and standard stream handling, except where an error return is a step outcome.
- Root selection, exit status mapping, release metadata parsing and the archive cache.
- Disks: a power loss drops a suffix of the changes, which assumes that the file system keeps their order. The bytes of a new file count as durable together with its name; state, journal and catalog are flushed before they are renamed, but for extracted packages, whose files `src/package_extract.c` never synchronises, this is part of the same assumption.
- Disks: losses that reorder changes of different directories are the subject of DirectoryLosses only, for what a finished recovery has deleted; every other deletion of a tree concerns staging paths. Directories that only lead to a package, such as its component directory, are not objects of their own; the host is implicit in a package's path.
- Disks: the state file and the journal hold their meaning; that the bytes mean just that is the subject of StateFiles and JournalDocument.
- Disks.Disk.RemoveTree: a tree is a set of entries that disappear one by one, so nested directories are not told apart.
- Recovery: package validation is an arbitrary relation between an identity and the entries of a tree, and objects are only changed by `cup` itself.
- Installs.InstallOperation.Execute: extraction puts arbitrary contents into staging and either validates them or fails.
- Sessions.RunSession: with a repair that cannot read the state, every recorded package must be of this host, which `state.txt` cannot express otherwise; a request for another host is refused, as it cannot be built. Commands run one after the other under the lock, each complete or cut by a power loss; that the lock excludes is the subject of Handoffs.
- Repairs.ReconcileState: the state is one that the loader accepted or an empty one, as the command ensures before reconciling.
- RepairCommands: the scan finds what stands at the paths of packages; other entries of the components tree, which are only reported, and the repair of preferences, generation, catalog and lock file are left out. The reconciled state is computed on its meaning; that the array passes compute the same is the subject of Repairs.
- Updates.ExecutePlan: a power cut ends the process and so the loop; only whole commands run between items.
- Refreshes: replacements of the catalog by other commands, such as a repair that restores one, are not refreshers; a revision whose installation was lost to a power loss may be installed again with other bytes.
- Refreshes.CatalogStore.CommitRemote: the exact point inside the replacement where it fails is reduced to before or after the new file is visible.
- Catalogs: reading the catalog document and its indexed fields; a record comes with the set of fields it was given.
- PathTables: the table is a map rather than a hash table, and its fixed record overhead is that of a 64-bit host.
- Extraction: normalising entry paths, size limits, entry metadata and the copying of data, which are single checks beside the table.
- ManifestChecks.VerifyManifest: reading lines from the file, the format line and interrupts are left to the caller; every failure is one error code.
- LinkResolution: a trailing slash of a target is not told apart from none, so that a target counts as resolved somewhat more often than by the system; places are names from the root of a file system without mounts.
- ManifestChecks: where a path leads once a link redirects it is arbitrary; a link's own digest and whether it resolves inside the package are facts of the tree.
- Handoffs: modelled on values as steps that interleave in any order rather than as objects, because no single method owns the state; process numbers stand for processes, the lock file is one file, and a helper may die at any moment.
- StateFiles.LoadStatePath: a missing state file is handled by the callers and by Recovery.
