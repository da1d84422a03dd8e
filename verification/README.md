# DonDude, modelled and proved

DonDude backs up the configuration of a fleet of RouterOS devices into a git
repository, from a web interface and from the command line. This project models
the parts of it where state, interleaving and crashes matter, and proves what
they keep. `dafny verify dfyconfig.toml` checks everything.

How the model is laid out:

- **The backup repository.** `Git` holds commits (a commit is its content, so
  graphs are finite and acyclic), HEAD, index, working tree and tracking head.
  `Store` is split into file write, index write and commit, and can be cut short
  at each. `Sync` fetches, classifies and fast-forwards; `CrashRecovery` is about
  any history of stores; `Installations` lets any number of clones, their
  operators and other git clients share one remote branch. `History` is the
  per-file log. `BackupRepository` is the object itself, whose methods move the
  fields step by step and are proved equal to the functions above.
- **The run.** `Pipeline` folds captures in the order they complete, sorts the
  reports and decides the push. `PipelineProofs` and `RunTheorems` prove what
  holds for every completion order, `RunRemote` what a run has to do with its
  remote and that it works without. `Paths`, `Templates`, `TemplateShapes` and
  `Fleet` show where the distinct files this needs come from.
- **The stored file.** `Text` and `Lines` are the string operations, `Export`
  turns router output into a stable file, `ExportTheorems` proves that equal
  files mean equal configurations and the reverse, `ExportClock` that the date
  of the capture leaves no trace, `Capture` both for the facts of prints and
  banner together. `CaptureFacts` and `BannerFacts` follow each fact from the line
  a router prints to the line of the file.
- **One run at a time.** `RunSlot` is the in-memory slot, `RunProtocol` the steps
  of all processes, `RunSafety` the invariant, `RunExclusion` what follows from
  it for every run of the protocol. `Scheduler` is the daily start.
- **Deployment backups.** `Archive` is the framing, `Statements` the statement
  splitter, `Dump` the text of a dump, `Restore` its replay over a database with
  foreign keys.
- **Sign-in.** `Throttle` is the login limit, `LoginAnswers` what the form answers
  and its table holds.
- `Links` ties the layers together: the slot's object to the protocol between
  processes, and a backup run to the steps of an installation.

What the outside world is assumed to do:

- git: a path's status is empty exactly when HEAD, index and working tree agree
  on it; a forced checkout replaces everything the old index tracked; an unforced
  push is accepted only as a fast-forward. Line counts in a commit message are a
  function of the old and new contents, which is what a commit's note records.
- A router is an arbitrary capture or failure. The network may fail at the fetch
  and at the push, and the remote may move in between.
- The advisory lock is exclusive and lives exactly as long as the connection of
  the run that took it; that connection is not lost while the run lives.
- An HTTP request may be dropped at any point where its handler waits.
- Sealing and opening an archive undo each other under one key. A JSON array reads
  back as the rows it was made of, JSON rows contain no line break, and parsing one
  neither makes up nor loses an apostrophe (rows as the database prints them hold
  no escaped ones).
- Lower-casing ignores ASCII case and leaves names made of slug characters alone.
- The scheduler's clock never runs backwards, and a row is opened no earlier than
  the clock was read.

Where the code does less than its comments or documentation say, the model
follows the code, and a lemma says so:

- a binary-only commit is not counted and waits for the next run
  (`RunTheorems.NoCommitStaysLocal`, `RunTheorems.FollowingRunPushesEverything`);
  while the remote branch is missing only a text commit creates it
  (`RunTheorems.FirstPushNeedsATextCommit`);
- a half-staged file rides along in the next commit
  (`CrashRecovery.StagedFileRidesAlong`), which is exactly what breaks order
  independence (`RunTheorems.OrderIndependence`), and a recovering store can
  commit an empty diff (`CrashRecovery.EmptyDiffs`);
- validation does not compare binary files, so accepted fleets can overwrite
  their own captures under templates that `TemplateShapes.TemplatesThatKeepFilesApart`
  rules out;
- recovery after a restart does not look at the lock, so a closed row is final
  only under a condition (`RunExclusion.ClosedRowsAreFinal`), and a start whose request is dropped
  half-way leaves its slot taken (`RunExclusion.StuckExactlyByDroppedRequest`);
- a scheduled start that slips past midnight leaves two rows on the next day
  (`Scheduler.AtMostOnePerDay`);
- apostrophes are not doubled in a dump (`Dump.LiteralReadsBack`,
  `Restore.RestoresExactly`), and `device_updates` is emptied by a restore
  (`Restore.DeploymentRestores`);
- a lockout can end before the wait it reported (`Throttle.LockoutLastsAsReported`),
  does not grow by guessing during it (`Throttle.GuessingChangesNothing`), and on a
  clock finer than a second ends up to a second early
  (`Throttle.WindowsThatHold`).

## Model

| member | source | states |
|---|---|---|
| `Git.StoreSettles` | src/git/mod.rs:385-418 | a store that returns Ok leaves branch, index and working tree all holding the capture at its path, from any state, however torn |
| `Git.StoreExtends` | src/git/mod.rs:488-531 | a store, finished or cut short anywhere, only ever adds to the branch |
| `Git.StoreFrame` | src/git/mod.rs:488-531 | no other path of working tree or index moves; the branch changes elsewhere only by taking over what was already staged |
| `Git.EscapesAreRefused` | src/git/mod.rs:743-754 | a path that climbs or begins at the root is refused by stores and questions alike, and nothing else is refused for its path |
| `Git.StoreMatchesWouldChange` | src/git/mod.rs:467-478 | the dry-run question and the real store agree on every repository state: same errors, and would-change exactly when it commits |
| `Git.CleanStore` | src/git/mod.rs:385-540 | in a clean repository a store commits exactly when the contents differ from the branch; the commit differs from its only parent at that one path, and the repository stays clean |
| `BackupRepository.BackupRepo.CommitPath` | src/git/mod.rs:488-540 | stage, write the index, commit the whole index on HEAD, with a kill possible in between: the whole new state |
| `BackupRepository.BackupRepo.Store` | src/git/mod.rs:385-463 | the object method, step by step, is exactly the abstract store, for every fault; text and binary stores take the same steps |
| `BackupRepository.BackupRepo.WouldChange` | src/git/mod.rs:467-478 | answers the dry-run question and changes nothing |
| `BackupRepository.BackupRepo.MoveBranch` | src/git/mod.rs:369-378 | the branch moves before the forced checkout, so a kill can leave the tree behind |
| `BackupRepository.BackupRepo.SyncWith` | src/git/mod.rs:284-379 | fetch, classify, fast-forward: the whole new state and verdict of the abstract sync |
| `BackupRepository.BackupRepo.Push` | src/git/mod.rs:556-598 | an unforced push: the remote moves only as a fast-forward, a refusal changes nothing |
| `BackupRepository.BackupRepo.HistoryOf` | src/git/mod.rs:627-678 | below the limit, exactly the commits of the branch that changed the file, in the order the walk hands them out; at the limit nothing but such commits; empty without commits, an error for a path that climbs out |
| `BackupRepository.FoldCapture` | src/backup.rs:384-420 | the real fold over the repository object equals the abstract one; a binary that cannot be stored costs nothing |
| `BackupRepository.PushIfNeeded` | src/backup.rs:436-471 | the push decision in its order of tests, and at most one push |
| `BackupRepository.RunBackup` | src/backup.rs:213-357 | the whole run loop over captures as they complete, with the early exits, equals the abstract run |
| `BackupRepository.AbortSticks` | src/backup.rs:272-310 | after an error ends the fold, later completions change nothing |
| `Sync.SyncClassifies` | src/git/mod.rs:325-378 | on every pair of histories each verdict corresponds to exactly one relation of the two heads; fast-forward and dirty refusal are split by cleanliness, divergence by relatedness |
| `Sync.MergeBaseMeansRelated` | src/git/mod.rs:338 | a merge base is found exactly when the two histories share a commit |
| `Sync.SyncKeepsLocal` | src/git/mod.rs:284-379 | whatever sync answers, the branch keeps all its commits; every answer but a fast-forward leaves branch, index and tree untouched |
| `Sync.SyncedCanPush` | src/git/mod.rs:325-379 | after an error-free sync with a reachable remote that has the branch, a push cannot be refused |
| `Sync.SyncAnswers` | src/git/mod.rs:284-379 | every answer of a sync over reachability, the branch and what is known of the remote: unreachable is no error and only that is Unavailable, missing exactly when no branch is known, and each further verdict by one relation of the heads |
| `Sync.CheckoutReplaces` | src/git/mod.rs:369-378 | a fast-forward puts the tree of the remote in place of what was tracked and leaves untracked files elsewhere alone |
| `CrashRecovery.OkStoreDecides` | src/git/mod.rs:385-418 | after any history of stores cut short anywhere, the last Ok store of a path decides branch, index and working tree there |
| `CrashRecovery.SettledPersists` | src/git/mod.rs:488-531 | a settled path stays settled while other paths are stored, however those stores end |
| `CrashRecovery.NothingTornIsCommitted` | src/git/mod.rs:488-531 | no sequence of interrupted stores can stage or commit anything but complete captures |
| `CrashRecovery.NoRegression` | src/git/mod.rs:385-418 | a path never goes back behind its last successful store |
| `CrashRecovery.StagedFileRidesAlong` | src/git/mod.rs:494-531 | a kill between index write and commit leaves a staged file, and the next commit of any other path carries it along |
| `CrashRecovery.EmptyDiffs` | src/git/mod.rs:391-405 | a store commits without a difference at its path exactly when the branch already held the capture and index or working tree did not; without any difference exactly when nothing was staged elsewhere either |
| `Installations.RemoteOnlyMovesForward` | src/git/mod.rs:284-379 | any interleaving of fetches, syncs, stores, pushes, lost replies, operators and other clients moves the remote head only to descendants |
| `Installations.PushedCommitsArePermanent` | src/git/mod.rs:556-598 | a commit whose push was accepted is on the remote for ever after, even if the reply was lost |
| `Installations.LocalBranchNeverLosesCommits` | src/git/mod.rs:284-418 | no step of the program makes a commit of an unattended installation unreachable from its own branch |
| `Installations.TrackingIsPartOfRemote` | src/git/mod.rs:284-310 | what an installation believes about the remote is always part of what the remote contains |
| `Installations.RejectionMeansAnotherWriter` | src/git/mod.rs:590-597 | after a sync, a push is refused only because someone else moved the remote in between |
| `Installations.DivergenceIsNeverResolvedAlone` | src/git/mod.rs:331-352 | a diverged installation stays diverged and leaves the remote alone, however often it runs: neither history is dropped |
| `History.HistoryIsComplete` | src/git/mod.rs:627-678 | below the limit, history shows a commit exactly if it is in the walk and changed the file against its first parent |
| `History.EntriesFromPrefix` | src/git/mod.rs:637-641 | stopping the walk at the limit loses nothing that would have been shown |
| `History.StoreShowsInHistory` | src/git/mod.rs:385-540 | in a clean repository one store adds exactly its own commit to the history of its own file, and nothing to any other |
| `History.HistoryIsTheStores` | src/git/mod.rs:627-678 | after any crash-free stores the history of a file is the commits its own stores returned, newest first, before the history it already had |
| `History.ChainIsTheBranch` | src/git/mod.rs:633-635 | on a branch without merges the walk down the first parents is the whole branch |
| `History.ChainIsWalk` | src/git/mod.rs:633-639 | so it is a walk: every commit of the branch, once |
| `History.StoreKeepsLinear` | src/git/mod.rs:514-531 | stores never make merges |
| `Pipeline.PositionOf` | src/backup.rs:332-337 | the first device of a name, or past the end |
| `PipelineProofs.FoldIsReplay` | src/backup.rs:272-328 | a run that is not cut short leaves what the plain sequence of its stores leaves, with one report per completion |
| `PipelineProofs.IndependentReplay` | src/backup.rs:272-328 | exactly how stores of different files change the repository, file by file, from any state, half-staged ones included |
| `PipelineProofs.ArrivalsIndependent` | src/backup.rs:423-434 | the text and binary files of a fleet never meet, in any completion order |
| `PipelineProofs.RealRunReports` | src/backup.rs:272-328 | unless a half-staged device meets another one that has something to store, each report of a real run is what can be read off the state before it, in every completion order |
| `PipelineProofs.DryRunReports` | src/backup.rs:394-400 | the same for a dry run |
| `PipelineProofs.DryRunChangesNothing` | src/backup.rs:394-400 | a dry run leaves commit graph, index and working tree alone |
| `RunTheorems.ReportsFollowConfig` | src/backup.rs:330-338 | sorted reports: one per device, each at its own device's place, whatever the completion order |
| `RunTheorems.TallyAddsUp` | src/backup.rs:163-182 | changed, unchanged and failed add up to the number of reports |
| `RunTheorems.ExitCodeTells` | src/backup.rs:198-204 | a run exits with zero exactly when no device and no push failed |
| `RunTheorems.RowsOf` | src/backup.rs:272-338 | then the sorted rows of a run, and whether it committed anything, are fixed by the state before it; those of a dry run always are |
| `RunTheorems.OrderIndependence` | src/backup.rs:272-340 | all completion orders end with the same branch tree, index, working tree, outcomes with their line counts, report order and need to push, exactly when no captured device is half-staged while another one has something to store |
| `RunTheorems.TreesAfterRun` | src/backup.rs:272-328 | branch tree, index and working tree come out the same in every order, from any state at all |
| `RunTheorems.ReportsSeen` | src/backup.rs:272-328 | every report says what its device saw when its turn came, from any state at all |
| `RunTheorems.StagedFileBreaksOrderIndependence` | src/git/mod.rs:494-531 | whenever there is such a device, two orders that report differently about it |
| `RunTheorems.DryRunPredictsRealRun` | src/backup.rs:384-404 | when the sync does not move the branch, a dry run names exactly the devices the real run commits, in any two orders, dirty files or not, and leaves no trace |
| `RunTheorems.DryRunTallies` | src/backup.rs:163-182 | so its closing tally is that of the real run: changed, unchanged and failed |
| `RunTheorems.FoldExtends` | src/backup.rs:272-328 | folding captures only ever adds to the branch |
| `RunTheorems.NoCommitStaysLocal` | src/backup.rs:436-471 | with a quiet, reachable remote an error-free run leaves everything the branch held at its start on the remote, Pushed means the heads are equal, and it pushes exactly when it made a text commit or was ahead |
| `RunTheorems.FollowingRunPushesEverything` | src/backup.rs:448-463 | however a run ended, the next one that completes puts every commit it left behind on the remote |
| `RunTheorems.FirstPushNeedsATextCommit` | src/backup.rs:455-462 | while the remote branch is missing, it is created exactly when a run makes a text commit |
| `RunTheorems.CompletedRunRecovers` | src/backup.rs:272-328 | whatever earlier runs left behind, a completed run settles every file it captured |
| `RunRemote.ConfigOrderKeeps` | src/backup.rs:330-338 | sorting the reports loses none and makes up none |
| `RunRemote.CommitsAreReported` | src/backup.rs:310-313 | the counter that decides about the push is positive exactly when a report names a commit |
| `RunRemote.OnlyReportedPushesMove` | src/backup.rs:436-471 | over every run the shared branch and what is known of it move by a reported push only; a dry run, one told not to push, one without a remote or with one that may not be written to leaves the branch as it found it and reports the push as skipped |
| `RunRemote.SkipReasons` | src/backup.rs:443-462 | each reason not to push stands for the first test that held the push back |
| `RunRemote.PushIsTried` | src/backup.rs:443-471 | a push is tried exactly when allowed and either a device reports a commit or the branch was ahead; how it ends is decided by the network and the heads |
| `RunRemote.SyncIsReported` | src/backup.rs:248-256 | a run syncs exactly when it has a remote and is no dry run, reports what the sync said, and ends on an error of it before anything is stored |
| `RunRemote.OfflineRunIsLocalRun` | src/git/mod.rs:282-304 | with an unreachable remote a run ends like one without a remote: same reports or error, same branch, index and files |
| `Paths.Slugify` | src/config.rs:550-566 | the character loop computes the slug |
| `Paths.SlugIsSlug` | src/config.rs:543-566 | a slug is never empty, is over a-z, 0-9, dot, underscore and dash, and has no dot or dash at either end |
| `Paths.SlugIsIdempotent` | src/config.rs:550-566 | a slug is its own slug |
| `Paths.SlugIgnoresCase` | src/config.rs:550-566 | names that differ only in ASCII case share a slug |
| `Paths.SlugKeepsNames` | src/config.rs:550-566 | a name between letters or digits keeps every character in its place, in lower case, with a dash for what is not allowed |
| `Paths.RenderActsOnSegments` | src/config.rs:572-583 | rendering works segment by segment: no name can add or remove a separator |
| `Paths.PathClimbsOnlyWithTemplate` | src/config.rs:572-583 | a rendered path contains `..` exactly when the template does |
| `Paths.LastDot` | src/backup.rs:424-425 | where a file name's extension starts |
| `Paths.CheckDevices` | src/config.rs:424-455 | accepts exactly the lists with filled-in devices that share neither name nor file; otherwise names the first problem of the first offending device |
| `Paths.Validate` | src/config.rs:402-457 | accepts exactly the usable configurations, each refusal for its own reason and in order |
| `Paths.ErrorsTellTheTruth` | src/config.rs:424-455 | an error names a device that has that very fault and none looked for before it, and all devices before it are in order |
| `Paths.AcceptedIsFilled` | src/config.rs:425-447 | no accepted device lacks a name, a host or a username |
| `Paths.DeviceFilePath` | src/backup.rs:423-434 | under a template ending in `{device}.rsc` the text and binary file of a device, side by side |
| `Templates.FleetFilesAreDistinct` | src/config.rs:448-455 | whenever the template fixes the extension of the file name, to anything but the binaries' own, all text and binary files of every accepted fleet are pairwise distinct, for any template whatever else it contains |
| `Templates.AcceptedFilesApartExactly` | src/config.rs:424-455 | for any accepted fleet they are distinct exactly when no text file is called .backup and no two in one directory share a stem, which validation does not look at |
| `TemplateShapes.TemplatesThatKeepFilesApart` | src/config.rs:572-583 | a template of text and placeholders keeps the files of every accepted fleet distinct exactly when no name can come out as .backup and each placeholder of the name is decided by the directories or has a dot behind it |
| `TemplateShapes.ProneTemplateOverwrites` | src/backup.rs:423-434 | otherwise: an accepted fleet of one device whose binary is its own text file |
| `TemplateShapes.UnguardedTemplateCollides` | src/backup.rs:423-434 | or an accepted fleet of two devices that share a binary |
| `TemplateShapes.NamesWithExtensionsCollide` | src/config.rs:402-455 | under `{device}` any two names of one stem make such an accepted fleet |
| `TemplateShapes.SuchNames` | src/config.rs:550-566 | r1.rsc and r1.cfg are two such names |
| `TemplateShapes.BackupTemplateLosesCaptures` | src/backup.rs:423-434 | under `{device}.backup` any one device makes an accepted fleet whose binary is its own text file |
| `Templates.BackupTemplateOverwrites` | src/backup.rs:423-434 | an extension fixed to .backup makes every binary overwrite its text file, in every fleet |
| `TemplateShapes.RepeatedPlaceholderIsSafe` | src/config.rs:572-583 | a fixed extension is not necessary: a directory that decides the name will do |
| `Templates.DeviceFileIsFixed` | src/config.rs:136 | templates that end like the default one fix the extension |
| `TemplateShapes.RenderingFills` | src/config.rs:572-583 | rendering fills every placeholder of a segment with the slug, and touches nothing else |
| `Fleet.KeptIsSubsequence` | src/config.rs:462-466 | the selection is every matching device, once, in configuration order |
| `Fleet.Unmatched` | src/config.rs:470-477 | the first explicit name that selects nothing, if there is one |
| `Fleet.FiltersNarrow` | src/config.rs:511-536 | without a filter the devices that are switched on; tags and tenants only narrow, to devices that carry one; a device switched off takes part only by name or on request |
| `Fleet.FilterPartsJoin` | src/config.rs:511-536 | a filter is the conjunction of its names, tags and tenants |
| `Fleet.AnyEntryWillDo` | src/config.rs:511-536 | within a part any one entry will do: more entries select what either list selects |
| `Fleet.OneEntryAsks` | src/config.rs:511-536 | one entry asks for a tag, the tenant or the name, whatever the case |
| `Fleet.SwitchedOff` | src/config.rs:511-536 | a device that is switched off counts as switched on when asked for or named, and takes no part otherwise |
| `Fleet.NamingSelectsExactlyOne` | src/config.rs:461-530 | naming one device of an accepted fleet selects it alone, switched off or not, and an unknown name is an error |
| `Fleet.BackupPathResolves` | src/git/mod.rs:743-754 | a path from a template that does not climb stays inside the repository |
| `Fleet.SelectionIsReady` | src/config.rs:402-479 | whatever is selected from an accepted configuration whose files are distinct, under a template that does not climb, the run's names and files are distinct and inside the repository |
| `Text.ReplaceActsOnPieces` | src/config.rs:573-582 | replacing a token without separators, by text without separators, acts on every segment separately |
| `Lines.NormalizeIsOnePass` | src/routeros/export.rs:289-291 | the two newline replacements are one left-to-right pass |
| `Lines.TrimJoined` | src/routeros/export.rs:293-300 | trimming final newlines is dropping empty last lines |
| `Export.FromExportBanner` | src/routeros/export.rs:71-94 | the loop over banner lines learns exactly the facts of the specification, later lines winning |
| `Export.SplitAtExportBanner` | src/routeros/export.rs:239-261 | the offset loop cuts before the first banner line, or nowhere |
| `Export.Render` | src/routeros/export.rs:164-206 | the buffer is filled to exactly the header, the commented user state and the body; verbatim mode keeps the text |
| `Export.PushField` | src/routeros/export.rs:302-309 | one header line for a value that is not blank, nothing otherwise |
| `Export.PushFacts` | src/routeros/export.rs:194-199 | the six facts in their order |
| `Export.Normalize` | src/routeros/export.rs:141-160 | split, parse and render put together |
| `ExportTheorems.RenderedIsLines` | src/routeros/export.rs:164-206 | a rendered file is its header, comment and body lines, less empty last ones, each with a newline |
| `ExportTheorems.FactsReadBack` | src/routeros/export.rs:193-200 | a list of keyed facts can be read back from the lines it is written as |
| `ExportTheorems.HeadersReadBack` | src/routeros/export.rs:191-201 | two files of one device and command begin alike exactly when they show the same facts |
| `ExportTheorems.TailReadsBack` | src/routeros/export.rs:204-205 | commented user state followed by configuration has only one reading, up to empty last lines |
| `ExportTheorems.RemLinesInjective` | src/routeros/export.rs:209-222 | commenting user state keeps lines apart, blank ones aside |
| `ExportTheorems.RenderDetectsExactlyTheChanges` | src/routeros/export.rs:164-224 | two rendered files are equal if and only if facts, user state and configuration are the same |
| `ExportTheorems.VerbatimDetectsExactlyTheChanges` | src/routeros/export.rs:173-177 | with header rewriting off the file is the raw text up to line breaks and final newlines, and two files are equal exactly when the texts are |
| `ExportClock.BannerFactsAreOneLine` | src/routeros/export.rs:71-94 | facts parsed from a banner never span lines |
| `ExportClock.MergePrefersKnown` | src/routeros/export.rs:47-58 | in every field the known value wins and gaps are filled; merging keeps facts on one line, and merging again changes nothing |
| `ExportClock.NormalizeDetectsExactlyTheChanges` | src/routeros/export.rs:141-160 | the same equivalence for raw router output, without any condition |
| `ExportClock.DatedLineTeachesVersion` | src/routeros/export.rs:78-82 | a dated banner line is recognised, and teaches the version and nothing of the date |
| `ExportClock.SplitsBeforeBanner` | src/routeros/export.rs:239-261 | the split falls right before the first banner line, whatever line breaks surround it |
| `ExportClock.ClockIndependence` | src/routeros/export.rs:71-261 | two captures that differ only in the date of the banner normalise to the same bytes and facts |
| `ExportClock.StripUndoesRender` | src/routeros/export.rs:278-287 | stripping a rendered file gives the configuration back, up to final newlines, exactly when every header line, as read back, is a comment or blank; for any name, command and facts |
| `ExportClock.SingleLinesComeBack` | src/routeros/export.rs:191-201 | which single-line names, commands and facts guarantee |
| `Capture.ParsePrint` | src/routeros/export.rs:316-329 | the loop over printed lines keeps the last value of each key |
| `Capture.CaptureFile` | src/routeros/mod.rs:92-111 | the facts of the prints, filled up from the banner, rendered into the file |
| `Capture.FactsAreOneLine` | src/routeros/mod.rs:184-205 | no fact of a capture spans lines, whatever the router printed |
| `Capture.CaptureDetectsExactlyTheChanges` | src/routeros/mod.rs:92-111 | two captures of one device under one command are stored as the same bytes exactly when merged facts, user state and configuration are the same |
| `Capture.CaptureIgnoresTheClock` | src/routeros/mod.rs:92-111 | captures that differ only in the date of the banner are stored as the same bytes |
| `CaptureFacts.LastLineWins` | src/routeros/export.rs:316-329 | a print means, for every key, the last line that begins with it |
| `CaptureFacts.FactsComeFrom` | src/routeros/mod.rs:184-205 | which printed key becomes which fact, that the board name outranks the model of the routerboard, and what the banner fills in where the prints are silent |
| `CaptureFacts.FileShowsFacts` | src/routeros/export.rs:189-198 | every fact stands in the file on a line of its own, under its name |
| `CaptureFacts.PrintsAreShown` | src/routeros/mod.rs:92-111 | from print to file: the value a router prints under a key stands in its stored file under the name of that fact |
| `CaptureFacts.FileKeepsTheRest` | src/routeros/export.rs:179-223 | below the header come the lines before the export as remarks, then the export from its first line that is no comment, every line as it is |
| `CaptureFacts.FileNamesItsDevice` | src/routeros/export.rs:189-190 | the file begins with its title and its device |
| `BannerFacts.HeaderTeachesAgain` | src/routeros/export.rs:71-95 | read as a banner, the header of a stored file teaches the model, serial number and software id written into it, unless one reads as a version |
| `BannerFacts.BannerLinesTeach` | src/routeros/export.rs:83-91 | which line of the banner teaches which fact |
| `BannerFacts.BannerNamesRouterOS` | src/routeros/export.rs:246-251 | only a comment that names the RouterOS version is taken for the banner |
| `RunSlot.RunManager.IsRunning` | src/web/runner.rs:72-77 | a slot is running exactly while it is taken and unfinished |
| `RunSlot.RunManager.Snapshot` | src/web/runner.rs:68-70 | shows a run exactly if it is the one being tracked |
| `RunSlot.RunManager.Start` | src/web/runner.rs:83-152 | a refused start touches nothing, a failed one frees the slot, each error for its own cause, and success leaves a fresh log under the row's id |
| `RunSlot.RunManager.PushLine` | src/web/runner.rs:154-158 | appends one line to the run in the slot, if any |
| `RunSlot.RunManager.Text` | src/web/runner.rs:160-166 | the log as one text |
| `RunSlot.RunManager.Finish` | src/web/runner.rs:168-174 | marks the run finished with its summary |
| `RunSlot.RunManager.Execute` | src/web/runner.rs:189-243 | what is saved is the log including the closing line, and the slot ends finished with that log |
| `RunSlot.SoloRunSavesItsOwnLog` | src/web/runner.rs:91-109 | undisturbed, that is the opening line, the run's lines and the closing one |
| `Links.RunManagerFollowsProtocol` | src/web/runner.rs:83-243 | one undisturbed run through the steps of the protocol does to the slot what Start and Execute do, saves the log Execute hands over, and gives the lock back |
| `Links.RunIsInstallationSteps` | src/backup.rs:213-357 | whatever way it ends, a backup run is a sequence of steps its installation takes by itself |
| `Links.ExecuteRun` | src/web/runner.rs:216-242 | the finished slot shows the whole log, and failure exactly when the run was aborted or a device or the push failed |
| `RunSafety.KeepsLock` | src/db/mod.rs:441-456 | every step keeps: whoever is past taking the lock holds it |
| `RunSafety.KeepsSlot` | src/web/runner.rs:88-152 | every step keeps: a claimed slot belongs to one task and shows that task's own lines and row |
| `RunSafety.KeepsId` | src/web/runner.rs:138-140 | every step keeps: an unfinished slot with a run id has a live owner |
| `RunSafety.KeepsRow` | src/db/mod.rs:1322-1332 | every step keeps: rows and their owners name each other |
| `RunSafety.KeepsLog` | src/web/runner.rs:217-243 | every step keeps: what is or was saved is what the run said |
| `RunSafety.KeepsWrites` | src/main.rs:555-576 | every step keeps: the changes of one run are contiguous |
| `RunExclusion.ReachedIsSafe` | src/web/runner.rs:84-243 | all of these hold after any sequence of web starts, command-line runs, failures, dropped requests, kills and restarts |
| `RunExclusion.MutualExclusion` | src/db/mod.rs:441-456 | at most one task of all processes is between taking and dropping the lock, and only it changes the repository |
| `RunExclusion.RunsNeverInterleave` | src/main.rs:555-576 | the repository changes of two runs never interleave |
| `RunExclusion.UnfinishedSlotHoldsTheLock` | src/web/runner.rs:91-152 | an unfinished slot with a run id: its process holds the lock and owns that row |
| `RunExclusion.SavedLogIsOwnLog` | src/web/runner.rs:217-243 | the log saved for a web run is exactly the lines that run said, in order; a command-line run saves none |
| `RunExclusion.RunningRowsAreAccountedFor` | src/db/mod.rs:1322-1348 | a row still running belongs to the lock holder or is an orphan, so at most one is no orphan |
| `RunExclusion.ClosedRowsAreFinal` | src/db/mod.rs:413-424 | a closed row never changes again exactly if whoever opened it is gone or past its closing write |
| `RunExclusion.RecoveryIgnoresTheLock` | src/db/mod.rs:413-424 | and closed rows of living owners do occur: a restart during a command-line run marks its row failed while it holds the lock |
| `RunExclusion.StuckExactlyByDroppedRequest` | src/web/runner.rs:91-140 | a slot is left taken for ever exactly when the request that claimed it is dropped while waiting for the lock or the row |
| `RunExclusion.TakenSlotsAreOwned` | src/web/runner.rs:88-152 | without such drops every taken slot has an owner |
| `RunExclusion.OwnerCanGoOn` | src/web/runner.rs:111-152 | whatever the database answers, an owner always has a step that takes its run on |
| `RunExclusion.OwnersGiveSlotsBack` | src/web/runner.rs:111-243 | after at most six such steps it has given the slot back, whatever others do in between |
| `RunExclusion.StuckUntilKilled` | src/web/runner.rs:93-97 | a stuck slot refuses every start until its process is killed |
| `Scheduler.Database.SchedulerTick` | src/web/mod.rs:231-273 | one tick: starts a run exactly when enabled, in the minute, with none in five minutes, nothing running, and the row opened |
| `Scheduler.Database.Loop` | src/web/mod.rs:219-228 | the tick loop records exactly the runs of the specification |
| `Scheduler.StartsAreApart` | src/db/mod.rs:1453-1461 | scheduled runs start more than five minutes apart, from each other and from any on record, across restarts |
| `Scheduler.InScheduledMinute` | src/web/mod.rs:236-241 | the hour and minute test is a test for one particular minute of the day |
| `Scheduler.OncePerDay` | src/web/mod.rs:231-273 | at most one scheduled run is decided on per UTC day |
| `Scheduler.AtMostOnePerDay` | src/web/mod.rs:231-273 | over all ticks and earlier rows, with starts that open their row within a bound, at most one opens per UTC day exactly when the scheduled minute and that bound fit before midnight, or the minute is one of the first five of the day |
| `Scheduler.SlippedStart` | src/web/mod.rs:236-250 | otherwise: two starts that open on one day |
| `Scheduler.SomeTickInside` | src/web/mod.rs:220-223 | ticks at most a minute apart cannot miss a minute |
| `Scheduler.EveryDayGetsItsRun` | src/web/mod.rs:219-273 | a day with an enabled schedule, such ticks, nothing running and working starts gets its run |
| `Scheduler.OnlyIdleTicksCount` | src/web/mod.rs:231-250 | ticks with the schedule switched off or a run going leave no trace, wherever they stand |
| `Scheduler.StartsAreAskedFor` | src/web/mod.rs:231-250 | every start comes from a schedule that is switched on, in its own minute, with no other run going |
| `Scheduler.NothingElseHoldsBack` | src/web/mod.rs:231-250 | and nothing but a start within five minutes holds one back |
| `Archive.EntryIsFramed` | src/backup_archive.rs:252-277 | reading an entry and framing it undo each other, both ways, with the exact rest |
| `Archive.FramingIsExact` | src/backup_archive.rs:218-225 | framing is a bijection between lists of entries that fit and accepted streams; re-encoding gives the same bytes |
| `Archive.CutIsRejectedInsideEntries` | src/backup_archive.rs:252-295 | a stream cut anywhere is accepted exactly when cut between entries, and then reads as those before the cut |
| `Archive.CutEntrySays` | src/backup_archive.rs:263-295 | which error a cut entry gives, by where the cut falls |
| `Archive.HigherBytesFirst` | src/backup_archive.rs:279-295 | numbers are written with their high bytes first: they compare like their bytes |
| `Archive.Buffer.WriteEntry` | src/backup_archive.rs:252-260 | appends the framed entry exactly when name and data fit their length fields |
| `Archive.Cursor.ReadU` | src/backup_archive.rs:279-295 | takes a big-endian number off the front, or refuses without moving |
| `Archive.ReadOne` | src/backup_archive.rs:263-277 | the entry and the bytes it takes, at least twelve |
| `Archive.ReadAll` | src/backup_archive.rs:218-225 | the loop ends and returns what the specification reads |
| `Archive.WriteAll` | src/backup_archive.rs:131-138 | writes the framing of all entries exactly when all fit |
| `Archive.SealArchive` | src/backup_archive.rs:108-147 | the whole archive, refused exactly when a length field overflows |
| `Archive.OpenArchive` | src/backup_archive.rs:187-226 | every check in its order |
| `Archive.PayloadIsExact` | src/backup_archive.rs:209-225 | a payload is accepted exactly if a writer could have written it |
| `Archive.ArchiveOpens` | src/backup_archive.rs:108-226 | a written archive opens to what was put in |
| `Archive.ArchiveIsExact` | src/backup_archive.rs:187-226 | an archive is accepted exactly if it is magic, format and what a writer could have sealed; each refusal of the header has its own cause |
| `Archive.FilesAreFound` | src/backup_archive.rs:108-120 | each file of a backup is found under its name, and an absent one is not |
| `Statements.CutsAtEvenQuotes` | src/backup_archive.rs:314-346 | a script is cut at exactly the semicolons that an even number of quotes precedes, and nothing is lost |
| `Statements.SplitStatements` | src/backup_archive.rs:314-346 | the character loop with its look-ahead returns exactly those pieces, trimmed, blank ones left out |
| `Statements.SplitUndoesScript` | src/backup_archive.rs:314-346 | splitting undoes the concatenation of whole statements, whatever they contain |
| `Dump.DumpSql` | src/db/mod.rs:1724-1775 | the loop over tables builds the dump text |
| `Dump.LiteralReadsBack` | src/db/mod.rs:1765-1771 | a literal of the dump reads back as what was written exactly when it contains no apostrophe |
| `Dump.TrimKeepsCode` | src/backup_archive.rs:331-343 | trimming a statement never loses code |
| `Dump.InsertRuns` | src/db/mod.rs:1765-1771 | an insert is one statement exactly when the apostrophes of its rows are even in number and no semicolon comes after an odd number of them |
| `Dump.DumpSplitsBack` | src/backup_archive.rs:314-346 | splitting a dump gives back the truncation and one insert per table with rows, comments and outer whitespace aside, exactly when each insert is one statement |
| `Restore.Server.RestoreSql` | src/db/mod.rs:1778-1791 | all statements or none: the transaction commits the replay or leaves the database as it was |
| `Restore.InsertMeansItself` | src/db/mod.rs:1765-1771 | an insert of a dump is read as an insert of the same rows into the same table exactly when they contain no apostrophe |
| `Restore.RestoresExactly` | src/db/mod.rs:1724-1791 | over any database a restore brings every listed table back as dumped exactly when no row contains an apostrophe, no reference dangling on the way |
| `Restore.OddApostrophesRunOn` | src/db/mod.rs:1765-1771 | apostrophes are not doubled: an insert ends at its own semicolon exactly when their number is even |
| `Restore.TablesAreInOrder` | src/backup_archive.rs:59-69 | every listed table comes after the tables it points at |
| `Restore.DeploymentRestores` | src/backup_archive.rs:55-69 | the nine tables come back exactly when no row contains an apostrophe, and device_updates then ends up empty |
| `Throttle.LoginAttempts.CountRecent` | src/db/mod.rs:561-585 | counts the failures after a time, and finds the latest |
| `Throttle.LoginAttempts.LoginLockout` | src/db/mod.rs:556-604 | the longer of the two waits, each only past its limit |
| `Throttle.LoginAttempts.RecordLoginAttempt` | src/db/mod.rs:608-636 | records the attempt, and a success clears the failures of that username |
| `Throttle.LoginAttempts.HandleLogin` | src/web/routes.rs:117-180 | check, verify, record, in that order; a refusal or a failed check records nothing |
| `Throttle.FailuresAreBounded` | src/db/mod.rs:538-604 | at most 10 uncleared failures per username and 30 per address in any window, over every sequence of logins |
| `Throttle.WholeSecondClock` | src/db/mod.rs:1582-1587 | on a clock of whole seconds that window is the full quarter of an hour |
| `Throttle.WindowsThatHold` | src/db/mod.rs:538-604 | the per-username limit holds over every run for windows of a length exactly when that length is at most the one given by the rounding |
| `Throttle.AddressWindowsThatHold` | src/db/mod.rs:538-604 | the same for the limit of thirty per address, against sprays over usernames |
| `Throttle.WaitingUnlocks` | src/db/mod.rs:556-604 | waiting the reported seconds always unlocks, if nothing is recorded meanwhile |
| `Throttle.ReportedWaitIsExact` | src/db/mod.rs:586-594 | one limit lasts as long as reported exactly if rounding cost all but nothing and enough failures lie in the last second up to the latest, on any clock |
| `Throttle.LockoutLastsAsReported` | src/db/mod.rs:586-594 | on whole seconds: the lockout lasts as long as reported exactly if one limit still has all its failures in the window at the end |
| `Throttle.UnlocksEarlier` | src/db/mod.rs:586-594 | sign-ins from nothing after which it ends earlier, for any gap |
| `Throttle.RefusalsLeaveNoTrace` | src/web/routes.rs:125-143 | any sequence of requests has the effect of those that were not refused, wherever the refused ones stand |
| `Throttle.GuessingChangesNothing` | src/web/routes.rs:125-143 | refused guesses prolong no lockout and change no later answer, whatever comes before and after |
| `Throttle.SuccessStartsOver` | src/db/mod.rs:627-633 | after a success the username has no failures left |
| `LoginAnswers.AnswerTells` | src/web/routes.rs:125-180 | over every table: too many exactly when ten failures of the username or thirty of the address within fifteen minutes leave a second to wait, and for as many whole seconds as the latest of them leaves; otherwise the password alone decides |
| `LoginAnswers.TableFromAnswers` | src/db/mod.rs:608-636 | over every history the table holds the sign-ins that were let in, and the wrong passwords whose username has not been let in since, nothing else |
| `LoginAnswers.WaitedEnough` | src/web/routes.rs:127-143 | whoever waits the seconds they were told is not refused again, however many guesses were refused meanwhile |
| `LoginAnswers.HeardAreAnsweredAlike` | src/web/routes.rs:125-180 | leave the refused requests out, and the others are answered as they were |

## Left out

- Throttle.FailuresAreBounded: the window is `Held(second)` ticks, which is the full fifteen minutes only on a clock of whole seconds; on a finer clock the code itself lets more through, and `Throttle.WindowsThatHold` says for exactly which windows the limit holds.
- Restore.Server.RestoreSql: the database understands only the two statements a dump consists of, anything else is an error; check constraints and unique constraints other than primary keys are not modelled.
- BackupRepository.BackupRepo.HistoryOf: the walk hands out the commits of the branch once each, in an order of its own; commit times play no part.
- TemplateShapes.TemplatesThatKeepFilesApart: about templates whose braces are those of placeholders, with one kind of placeholder to a directory and none twice in the file name. For all others `Templates.FleetFilesAreDistinct` and `Templates.AcceptedFilesApartExactly` hold; whether every fleet is safe then depends on which strings the values can make up between them.
- RunTheorems.DryRunPredictsRealRun: asks for the same steadiness as order independence, without which the real run itself depends on the order.
- RunTheorems.OrderIndependence: commit ids and commit times do depend on the order and are not compared; captures are stored without faults.
- History.HistoryIsTheStores: about branches without merges, which stores alone make, walked newest first.
- Archive.ArchiveOpens: file names stay bytes; turning a name that is not UTF-8 into text would lose it, and no writer makes one.
- SSH, host keys, timeouts, SFTP, the semaphore that limits concurrency: foreign calls that produce a capture or an error.
- libgit2 internals: diffs, ignore rules, credentials, `ensure_branch` when HEAD is on another branch, opening or creating the repository; the configured branch is the checked-out one.
- Checkouts that overwrite untracked files other than those of the new tree, and paths beginning with a `.` component.
- The wording of commit messages, log lines, reports and errors; reports carry the outcome and its line counts.
- Panics inside a run, and losing the lock's connection while the run goes on.
- Two serving processes racing in the scheduler: its question to the database and its start are not one step; the run lock still keeps them apart.
- Encryption, password hashing, sessions, HTML, mail, monitoring, firmware sweeps and the `update now` command.
- Settings, device forms and row-level security: thin wrappers with shallow properties.
- `Db::finish_run` beyond the run row: per-device events and the last-seen facts of devices.
- Retention: dropping old login attempts, samples and sessions.
