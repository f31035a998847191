# Verified models of Supabase Manager

Supabase Manager installs and reconfigures self-hosted Supabase servers. Its
Manager keeps the wanted configuration of every project in a database, its
Provisioner turns one configuration into running Compose services, and its nginx
agent publishes each project's site. This project models the parts that change
several pieces of state together and have to undo them correctly, and proves what
they keep for every input, every run and every failing step.

| files | part |
|---|---|
| `Configuration*.dfy` | the Manager's configuration transactions: revisions, last good revision, secret snapshots and inputs, leases and fences, port and domain reservations, who can commit, and the isolation of projects |
| `PortAllocation.dfy`, `PortReservation.dfy` | choosing ports for an update, reserving ports for an installation |
| `RuntimeDisk.dfy`, `RuntimeGenerations.dfy` | runtime generations behind the `current` link, with crashes |
| `LegacyMigration.dfy` | moving an older version's root files out of the way and back |
| `PasswordRotation.dfy` | rotation of the database password, its rollback and its confirmation |
| `ServiceLists.dfy`, `Reconcile.dfy` | applying a configuration to the running services, and undoing it |
| `FunctionReleases.dfy`, `FunctionArchive.dfy` | releases of an edge function, and the archive they come from |
| `GoStrings.dfy`, `DotEnv.dfy` | the environment file's printer and reader |
| `ServiceSelection.dfy` | the services the renderer emits, and the Manager's check of them |
| `NginxSite.dfy` | installing and removing one nginx site |

## How failures are modelled

Every external call (a file operation, a directory sync, a Compose or psql
command, a metadata write) succeeds or fails as it likes. A failed call has every
effect it can have: a rename or a metadata write none, a sync leaves pending what
was pending, a recursive removal may have removed any part, a failed role change
leaves the password arbitrary, a failed Compose call leaves the services it names
arbitrary. Where a method's source closes over variables, those are fields.

Where a result depends on one particular operation, that one is an input: whether
moving `current` back and syncing it works (`movable`, `resyncable`), whether
removing a whole directory works (`removable`), whether `project.json` can be written
(`recordable`), and whether what an nginx restore does works (`restorable`). Whether
anything at all fails is an input as well (`reliable`, `dependable`, `works`), so that
every operation is also proved to succeed where nothing fails. False means that it
may fail.

The database transactions are functions from tables to tables; the methods of
`ConfigurationStore.Store` run the same statements in order and are proved equal
to them. Runs are sequences of such steps over any number of projects.

## What turned out to hold only under a condition

- The runtime behind `current`, for running code: in every interleaving the pointer is
  where the calls and their reports say (`PointerOf`), absent or at a complete
  generation, and the generations it was moved to form a stack, unless a restore
  discards the generation of a commit that reported the pointer stranded, or a commit
  publishes a candidate that an earlier restore reported it could not remove
  (`RuntimeGenerations.AnyRun`, with the exact effect of each call in `Commit` and
  `Restore`; `LossWasReported` ties each exception to the earlier call that reported
  it). So a request on an installed server that commits no handle after restoring it
  is always right, and crash safe, where moving the pointer back works (`CleanRun`).
  `StrandedPointerDangles` gives the smallest run that ends with `current` naming a
  removed generation.
- The same across a crash. The first commit of every new server has an unsafe
  instant: nothing syncs `.manager-runtime` between making `generations/` in it and
  moving `current`, so a crash can keep the link and lose the directory
  (`FirstPointerTears`). The sync that ends the commit ends this too, and whatever
  follows starts from a secure runtime (`FirstCommit`). Otherwise a commit followed
  by a restore is crash safe throughout exactly when the commit lost neither the move
  back nor its sync and did not point at a half-removed candidate
  (`CommitThenRestore`; smallest run: `LostCompensationTears`). A commit after a
  failed restore publishes what is left, and is crash safe exactly when that is all
  of it (`RestoreThenCommit`). All of these state the condition on `generations/` as
  `rooted`. A lost compensation in a *restore* does no harm, and one in a commit does
  none until that handle is restored.
- A reconcile that reports a rollback has put the pointer back exactly unless its
  commit could not move it back; then the report says rolled back while `current`
  names a generation that is gone (`Reconcile.Backend.RolledBack`). The pointer is
  always back where moving it back works.
- A reconcile restarts nothing for a new Supabase version, Studio user, Studio
  password or managed certificate: those are not compared (`UntouchedIff`,
  `VersionAloneRestartsNothing`), and running services stay as they were
  (`UncomparedChangeRunsOld`). It also ignores the image proxy's switch while storage
  is off, and `auth-templates`, which it marks, has no place in the restart order
  (`AffectedIsSymmetric`). A changed address or gateway setting recreates the gateway
  exactly when the template calls it `api-gw`; an `envoy` or `kong` keeps running as
  it was (`GatewayRestartsIff`, `KongKeepsOldPort`).
- `redactConfiguration` does not clear the Studio password. The store keeps a secret
  input exactly when a caller hands one over in that field (`StoringIff`,
  `StudioPasswordSurvives`); the Manager takes it out beforehand
  (`apps/manager/internal/project/configuration_service.go:228-295`,
  `apps/manager/internal/project/service.go:111`), and then no run ever stores one
  (`RunKeepsClean`).
- A fence rises with every change of hands only while the lease row exists. Release
  and undo delete it, and the next acquisition inserts fence 1 again. An operation
  that holds the lease under the same fence at both ends of a run held it throughout
  exactly when the row was never deleted in between (`FenceRepeatsIff`); otherwise a
  worker of its earlier holding passes the owner check again. `ReleaseRepeatsFence` is
  the smallest such run.
- A publication writes the six port kinds one after the other, each freeing its own
  port first. It goes through exactly when every port is free in its turn
  (`ProjectPortsIff`, `MarkGoodCommitsIff`): two kinds that exchange their ports are
  admitted, applied and then refused (`SwappedPortsAreRefused`). An undo meets no such
  refusal: the holder of the lease can always go back to the last good revision
  (`UndoCommitsIff`).
- Admission uses `ExpectedRevision + 1` for reservations and the stored counter for
  the snapshot; the ledger survives exactly when they agree
  (`AdmittedKeepsLedgerIff`). Undoing keeps the ledger exactly when the revision was
  never good (`UndoneKeepsLedgerIff`).
- Project creation looks at published domains only, so it keeps domains exclusive
  exactly when its domain is not pending in another project
  (`CreatingKeepsDomainsIff`).
- The cursor search of installation succeeds for n missing kinds exactly when the
  range has n usable ports and, going round from some cursor, the first n usable ones
  are all unallocated and unreserved (`ReserveMany`, `SearchIff`). For one kind that
  is any free port (`OneKindFitsIff`); for two it can fail with two ports free
  (`TwoKindsMissFreePorts`).
- The environment reader does not undo the doubling of `$`: a value is read back
  exactly when it is not empty and has no `$` (`PrintedValueIsRead`, `RoundTrip`).
  Control characters survive, because quoting escapes them.
- The emitted services are dependency closed exactly unless one has a `depends_on`
  given as a single name, which is not pruned, and that name is not emitted
  (`RenderServices`).
- Function releases stay in order while removals of whole directories work: the
  removal that undoes a failed marker, and those of a deletion. Where one fails, the
  live path is left with the new tree, or a part of it, under the old marker
  (`FunctionSlot.Switch`). `RestoreFunctionRelease` leaves a good state exactly when
  both releases of the activation are still there (`FunctionSlot.Restore`).
- After a failed restore that had already moved the pointer, a second attempt is
  refused for ever (`RuntimeRoot.Restore`).
- A rotation writes `Secrets.DatabasePassword` into the new generation and the new
  password into PostgreSQL without comparing them: the selected generation carries
  the new password exactly when the request's two values agree
  (`Backend.RotateDatabasePassword`).
- When staging fails, rotation and its rollback call a restore closure that is nil.
  The model ends such a request with `Panic`: password, services, pointer and
  generations are untouched, and a rotation leaves the journal and fence it has
  already written.
- Reconcile stores its request's fence even when a higher one was stored
  (`Reconcile.Succeeded`), although a comment in the source speaks of claiming the
  highest.

## Hypotheses

- `port_allocations.port` and `(project_id, kind)` are unique, operation ids are
  unique, a new project starts with both revisions at 1; time is an integer.
- Callers of the store: admission names the stored revision
  (`apps/manager/internal/configuration/orchestrator.go:146`), undo is issued only
  for a revision never marked good (`:405`, `:453` of the same file), publication
  and undo come after installation, and installation persists the ports it was
  given. `ConfigurationRuns.Disciplined` states them.
- Generation names never repeat. A request's restore and commit closures are not
  called after it has returned.
- A fresh rotation is given the real old password and finds no journal of its own
  operation. The rollback that undoes it carries the swapped passwords and the same
  Supabase version.
- Compose commands touch only the services they name.
- Port probes are stable while a choice is made, and nobody else writes the tables.

## Model

| member | source | states |
|---|---|---|
| Configuration.Redact | apps/manager/internal/store/configuration.go:906-943 | The secret inputs of mail, phone, providers, storage and functions are cleared; everything else is kept, providers and variables with all but their secrets |
| Configuration.RedactIsIdempotent | apps/manager/internal/store/configuration.go:906-943 | Redaction fixes exactly the configurations in which those inputs are cleared |
| Configuration.RedactedIsSecretFreeIff | apps/manager/internal/store/configuration.go:906-943 | What is persisted carries no secret input exactly when the given Studio password is empty |
| Configuration.StudioPasswordSurvives | apps/manager/internal/store/configuration.go:906-943 | A Studio password handed over in the clear is persisted in the clear |
| Configuration.PortEntries | apps/manager/internal/store/configuration.go:846-885 | The six projected ports have pairwise different kinds |
| Configuration.Resources | apps/manager/internal/store/configuration.go:265-287 | The claimed resources are exactly the non-empty domain and the ports of enabled owners |
| Configuration.ClaimedPortsIff | apps/manager/internal/store/configuration.go:266-287 | A port is claimed exactly when it is not 0 and is the API port or the port of a service that is on |
| ConfigurationInvariants.ProjectPortsEffect | apps/manager/internal/store/configuration.go:846-885 | A projection gives the project exactly the configured ports of the mentioned kinds and touches no other row |
| ConfigurationInvariants.AdmittedKeepsInv | apps/manager/internal/store/configuration.go:117-262 | Admission keeps ledger, pending reservations, port exclusivity and bound fences |
| ConfigurationInvariants.AdmittedKeepsLedgerIff | apps/manager/internal/store/configuration.go:152-228 | Admission keeps the canonical row equal to the snapshot at the current revision exactly when it names the stored revision |
| ConfigurationInvariants.MarkedGoodKeepsInv | apps/manager/internal/store/configuration.go:776-844 | Marking good keeps the invariant, and both revisions are then equal |
| ConfigurationInvariants.UndoneKeepsInv | apps/manager/internal/store/configuration.go:630-720 | Undoing a revision never good keeps the invariant and returns to the last good revision |
| ConfigurationInvariants.UndoneKeepsLedgerIff | apps/manager/internal/store/configuration.go:667-708 | Undoing keeps the ledger exactly when the undone revision is above the last good one |
| ConfigurationRuns.StepKeepsInv | apps/manager/internal/store/configuration.go:90-904 | Every transaction issued as its callers issue it keeps the invariant |
| ConfigurationRuns.RunKeepsInv | apps/manager/internal/store/configuration.go:90-904 | The invariant holds after every run, over any number of projects |
| ConfigurationRuns.NoPortIsHeldTwice | apps/manager/internal/store/configuration.go:117-219 | After every run from the empty database no port is allocated to or reserved by two projects |
| ConfigurationRuns.LedgerHoldsAfterEveryRun | apps/manager/internal/store/configuration.go:152-228 | After every run the canonical row is the redacted snapshot at the current revision, last good is at most current, and both snapshots exist, despite reclaimed candidates and reused revision numbers |
| ConfigurationRuns.StepKeepsInstalled | apps/manager/internal/store/configuration.go:846-885 | An installed project keeps owning the domain and ports of its last good configuration through every step |
| ConfigurationRuns.RunKeepsInstalled | apps/manager/internal/store/configuration.go:846-885 | The same through every run, so the discipline asks nothing new of installed projects |
| ConfigurationRuns.CreateKeepsInv | apps/manager/internal/store/projects.go:42-104 | Creating a project keeps the invariant |
| ConfigurationRuns.PersistKeepsInv | apps/manager/internal/store/configuration.go:576-615 | Persisting the allocated configuration keeps the invariant and installs the project |
| ConfigurationRuns.ClaimPortsEffect | apps/manager/internal/store/ports.go:43-77 | A committed reservation adds exactly the requested rows, each free and for a kind that had none |
| ConfigurationRecovery.QuietRunKeepsSnapshots | apps/manager/internal/store/configuration.go:887-904 | Secret publications and the steps of other projects leave a project's snapshots alone |
| ConfigurationRecovery.AdmitThenUndoIsIdentity | apps/manager/internal/store/configuration.go:630-720 | Admit, any number of publications among other projects' steps, then undo: the project's secrets are as before, its lease and that revision's reservations are free, and the canonical configuration is as before if the base was last good |
| ConfigurationFencing.TakeoverNeedsExpiryAndRaisesFence | apps/manager/internal/store/configuration.go:140-151 | A lease row changes hands only after expiry, and then the fence rises by one |
| ConfigurationFencing.FenceNeverFalls | apps/manager/internal/store/configuration.go:321-334 | Over any run that never deletes the lease row, the fence does not fall |
| ConfigurationFencing.FenceRepeatsIff | apps/manager/internal/store/configuration.go:301-334 | An operation with the same fence at both ends of a run held the lease throughout exactly when the row was never deleted |
| ConfigurationFencing.ReleaseRepeatsFence | apps/manager/internal/store/configuration.go:301-334 | Acquire, release, acquire gives an operation fence 1 twice |
| ConfigurationFencing.StepKeepsFencedOut | apps/manager/internal/store/configuration.go:289-360 | Whoever lacks the lease lacks it after every step but its own acquisition |
| ConfigurationFencing.FencedOutChangesNothing | apps/manager/internal/store/configuration.go:648-666 | Without the lease, mark-good and undo change nothing, whatever fence they present |
| ConfigurationFencing.FormerOwnerStaysFencedOut | apps/manager/internal/store/configuration.go:807-821 | After a takeover the former owner's mark-good and undo change nothing in any later state until it acquires again |
| ConfigurationFencing.HolderCarriesTheFence | apps/manager/internal/store/configuration.go:321-360 | After every run the lease holder's payload carries the lease's fence |
| ConfigurationFencing.CreatingKeepsDomainsIff | apps/manager/internal/store/projects.go:42-104 | Creation keeps domains exclusive exactly when its domain is not pending |
| ConfigurationFencing.RunKeepsDomains | apps/manager/internal/store/configuration.go:117-139 | In every run without such a creation no domain is published by one project while another publishes it or has it pending |
| ConfigurationSecrecy.StoringIff | apps/manager/internal/store/configuration.go:90-116 | A committed admission, creation or installation keeps every stored configuration free of secret inputs exactly when it was handed one without a Studio password |
| ConfigurationSecrecy.StepKeepsClean | apps/manager/internal/store/configuration.go:846-852 | No other transaction ever stores a secret input |
| ConfigurationSecrecy.RunKeepsClean | apps/manager/internal/project/configuration_service.go:228-295 | After every run that hands over stripped configurations no stored one carries a secret input |
| ConfigurationCommits.StepKeepsRecords | apps/manager/internal/store/configuration.go:90-262 | Every step keeps: each revision has its snapshot and marker, each payload and lease its operation, each project its own domain |
| ConfigurationCommits.RunKeepsRecords | apps/manager/internal/store/configuration.go:90-904 | So does every run |
| ConfigurationCommits.ProjectPortsIff | apps/manager/internal/store/configuration.go:869-883 | A projection is refused exactly when some port belongs to another project, was just taken by an earlier kind, or is not yet given up by a later one |
| ConfigurationCommits.SwappedPortsAreRefused | apps/manager/internal/store/configuration.go:869-883 | A configuration in which the API and Studio exchange ports cannot be published |
| ConfigurationCommits.AdmitCommitsIff | apps/manager/internal/store/configuration.go:90-262 | Admission commits exactly for a new operation on a known project with a free lease, resources nobody else holds, and no active operation on the next revision |
| ConfigurationCommits.CandidateDecides | apps/manager/internal/store/configuration.go:167-187 | The candidate row never blocks when no operation bound to the next revision is active, and blocks when all are |
| ConfigurationCommits.MarkGoodCommitsIff | apps/manager/internal/store/configuration.go:776-844 | Publication commits exactly for the lease holder at the current revision, with a phase, a free domain and ports free in turn |
| ConfigurationCommits.UndoCommitsIff | apps/manager/internal/store/configuration.go:630-720 | Undo of a revision that was never good commits exactly for the lease holder whose operation runs it |
| ConfigurationCommits.UndoTwice | apps/manager/internal/store/configuration.go:640-660 | Repeating an undo commits and changes nothing |
| ConfigurationTables.OwnerErrorIff | apps/manager/internal/store/configuration.go:48-56 | An owner that is not blank after trimming and a fence from 1 on pass; each failure has its own error |
| ConfigurationIsolation.LastMutationDecides | apps/manager/internal/store/configuration.go:235-245 | After the mutations a kind holds the envelope of its last Put, or is absent after a last Delete |
| ConfigurationIsolation.UnnamedSecretStays | apps/manager/internal/store/configuration.go:235-245 | A kind no mutation names is as before |
| ConfigurationIsolation.AdmissionMutatesSecrets | apps/manager/internal/store/configuration.go:229-245 | A committed admission mutates exactly these secrets of its own project |
| ConfigurationIsolation.PublishEffect | apps/manager/internal/store/configuration.go:887-904 | A secret is published exactly at the current revision; its kind holds the envelope, every other secret and row is as before |
| ConfigurationIsolation.AdmissionRecordsOperation | apps/manager/internal/store/configuration.go:201-257 | The operation, its payload and the lease agree on owner, revision, configuration and fence; the lease lasts its time to live, 45 minutes by default |
| ConfigurationIsolation.RenewEffect | apps/manager/internal/store/configuration.go:289-299 | The holder moves the expiry; anybody else changes nothing |
| ConfigurationIsolation.ReleaseEffect | apps/manager/internal/store/configuration.go:301-307 | The holder frees the lease; anybody else changes nothing |
| ConfigurationIsolation.AcquireEffect | apps/manager/internal/store/configuration.go:321-360 | Acquired exactly by an operation with a payload while the lease is free; the payload carries the new fence |
| ConfigurationIsolation.CreateEffect | apps/manager/internal/store/projects.go:42-104 | Created exactly when project and domain are new, with both revisions at 1 and its secrets as first snapshot |
| ConfigurationIsolation.MarkGoodEffect | apps/manager/internal/store/configuration.go:776-844 | The revision becomes the last good one, the phase is noted, exactly its reservations go, and secrets, snapshots and leases stay |
| ConfigurationIsolation.StepLeavesOthersAlone | apps/manager/internal/store/configuration.go:90-904 | No step about one project changes a row of another in any table |
| ConfigurationIsolation.RunLeavesOthersAlone | apps/manager/internal/store/configuration.go:90-904 | Whatever other projects do, every row of a project is as it was |
| ConfigurationStore.FindConflict | apps/manager/internal/store/configuration.go:122-139 | The conflict queries answer whether some claimed resource is held by another project |
| ConfigurationStore.MutateSecrets | apps/manager/internal/store/configuration.go:229-245 | The last mutation of a kind decides: its envelope is stored or the kind is gone; a kind without one stays |
| ConfigurationStore.UpdateCanonicalProjection | apps/manager/internal/store/configuration.go:846-885 | The projection statements compute the specified projection, or fail exactly where it does |
| ConfigurationStore.Store.AdmitConfiguration | apps/manager/internal/store/configuration.go:90-262 | The statements of admission, in order, are the atomic transaction |
| ConfigurationStore.Store.MarkConfigurationGood | apps/manager/internal/store/configuration.go:776-844 | The statements of mark-good are the atomic transaction |
| ConfigurationStore.Store.RestoreConfigurationState | apps/manager/internal/store/configuration.go:630-720 | The statements of undo are the atomic transaction |
| ConfigurationStore.Store.TryReservePorts | apps/manager/internal/store/ports.go:43-77 | All ports are inserted, or the tables are unchanged |
| PortAllocation.ReservedPort | apps/manager/internal/store/ports.go:12-22 | A port is found exactly when the project holds one of the kind |
| PortAllocation.SplitKinds | apps/manager/internal/ports/allocator.go:159-176 | Held ports and missing kinds, in request order |
| PortAllocation.FillMissing | apps/manager/internal/ports/allocator.go:180-208 | The i-th missing kind gets the i-th lowest free port; exhaustion means fewer free ports than missing kinds |
| PortAllocation.CandidateMany | apps/manager/internal/ports/allocator.go:158-209 | Held ports reused, missing kinds served lowest first, exhausted only for want of free ports, a probe error only where a probe fails |
| PortAllocation.ChosenPortsAreOurs | apps/manager/internal/store/ports.go:27-38 | The chosen ports are pairwise different and none is held by another project |
| PortAllocation.ChosenPortsPassAdmission | apps/manager/internal/store/configuration.go:122-139 | When nothing intervenes, admission never refuses the chosen ports |
| PortAllocation.ReservesIff | apps/manager/internal/store/ports.go:43-77 | A reservation commits exactly for free, distinct ports and kinds without a port |
| PortReservation.SelectWindow | apps/manager/internal/ports/allocator.go:103-125 | The nested loops compute the window at a cursor |
| PortReservation.WindowTakesPrefix | apps/manager/internal/ports/allocator.go:103-125 | The window at a cursor is the first usable ports in cyclic order, one for each kind |
| PortReservation.UsableCount | apps/manager/internal/ports/allocator.go:126-128 | From every cursor the same number of usable ports is met, so exhaustion does not depend on it |
| PortReservation.ReserveMany | apps/manager/internal/ports/allocator.go:81-152 | All requested kinds end with a row of the project, or no row changes; success for n missing kinds exactly when the range has n usable ports and from some cursor on the first n usable ones are unallocated and unreserved; those are the ports taken |
| PortReservation.SearchIff | apps/manager/internal/ports/allocator.go:101-151 | The cursor loop succeeds exactly when the ports fit, for any number of kinds |
| PortReservation.OneKindFitsIff | apps/manager/internal/ports/allocator.go:101-151 | For one missing kind that is exactly when some port of the range is free |
| PortReservation.TwoKindsMissFreePorts | apps/manager/internal/ports/allocator.go:101-151 | A concrete table with two free ports for two kinds that do not fit |
| RuntimeDisk.CrashSafeIff | apps/provisioner/internal/projectfs/root.go:643-714 | Crash safe exactly when every crash leaves `current` absent or naming a complete generation with the contents running code saw |
| RuntimeDisk.RelinkLeaves | apps/provisioner/internal/projectfs/root.go:643-714 | Moving the link adds its target to what a crash may leave |
| RuntimeDisk.RewriteLeaves | apps/provisioner/internal/projectfs/root.go:358-380 | Publishing or removing a generation adds every state its entry takes |
| RuntimeDisk.SyncsLeave | apps/provisioner/internal/projectfs/root.go:381-387 | A sync takes back everything but the present state of its own directory |
| RuntimeDisk.RelinkIsSafeIff | apps/provisioner/internal/projectfs/root.go:671-674 | Moving `current` is crash safe exactly when the target is complete and durable, in a `generations/` that a crash cannot lose |
| RuntimeDisk.RemovalIsSafeIff | apps/provisioner/internal/projectfs/root.go:358-364 | Removing a generation is crash safe exactly when no surviving link can name it |
| RuntimeDisk.SyncsAreSafe | apps/provisioner/internal/projectfs/root.go:382-385 | Syncs keep crash safety; one of `generations/` makes its complete entries durable, and only one of `.manager-runtime` makes `generations/` itself durable |
| RuntimeDisk.FirstPointerTears | apps/provisioner/internal/projectfs/root.go:292-294 | The unsafe instant of every first commit: a complete, synced generation, a moved pointer, and `generations/` itself not yet synced into `.manager-runtime` |
| RuntimeDisk.LostCompensationTears | apps/provisioner/internal/projectfs/root.go:679-684 | The smallest run that tears the runtime |
| RuntimeDisk.StrandedPointerDangles | apps/provisioner/internal/projectfs/root.go:688-711 | The smallest run that ends with `current` naming a removed generation |
| RuntimeGenerations.RuntimeRoot.Switch | apps/provisioner/internal/projectfs/root.go:643-686 | The pointer is moved and synced, untouched, moved back and synced, moved back without a sync, or stranded; entries never change; crash safe at every instant exactly when the target is complete and durable in a durable `generations/` |
| RuntimeGenerations.RuntimeRoot.MoveBack | apps/provisioner/internal/projectfs/root.go:688-714 | Back and synced, back without a sync, or not back |
| RuntimeGenerations.RuntimeRoot.Stage | apps/provisioner/internal/projectfs/root.go:243-331 | A candidate and a pair of closures, or nothing |
| RuntimeGenerations.RuntimeRoot.Publish | apps/provisioner/internal/projectfs/root.go:377-387 | The candidate becomes a durable entry of `generations/` before any pointer moves; whether `generations/` is durable itself is unchanged |
| RuntimeGenerations.RuntimeRoot.Activate | apps/provisioner/internal/projectfs/root.go:388-403 | The pointer moves to the published generation and the closure remembers what it replaced; crash safe at every instant exactly when the generation is complete and `generations/` durable, or the pointer did not move |
| RuntimeGenerations.RuntimeRoot.Commit | apps/provisioner/internal/projectfs/root.go:371-409 | Where the pointer ends and what is left of the candidate for every outcome; the stack of complete generations survives exactly unless the pointer stays on a half-removed candidate; crash safety at every instant exactly unless it ever named one, or moved before `generations/` was durable; a success leaves a crash-safe runtime; a second commit does nothing; where nothing fails a staged candidate is committed |
| RuntimeGenerations.RuntimeRoot.StepBack | apps/provisioner/internal/projectfs/root.go:346-357 | Only the current generation is undone, exactly to what its commit found; stack and crash safety survive every failure |
| RuntimeGenerations.RuntimeRoot.Discard | apps/provisioner/internal/projectfs/root.go:358-369 | The staged directory goes away, synced, or the attempt fails; only a reported failure to remove leaves a part of an unpublished candidate |
| RuntimeGenerations.RuntimeRoot.Restore | apps/provisioner/internal/projectfs/root.go:332-370 | A successful restore returns exactly the pointer seen at commit; a non-current generation is refused with pointer and generations unchanged; a second restore does nothing; what it reports tells whether the pointer left the generation and whether a part of the candidate may be left; stack and crash safety survive unless the handle was stranded or exposed by its commit |
| RuntimeGenerations.RuntimeRoot.Select | apps/provisioner/internal/projectfs/root.go:197-209 | Only existing generations are selected; without live closures the runtime stays standing exactly on a complete one and crash safe exactly on a durable one |
| RuntimeGenerations.MakeCall | apps/provisioner/internal/projectfs/root.go:326-409 | One stage, commit or restore: what it reports determines, for the caller's log, the handles, which are committed and published, which candidates may be torn and where the stack stands; stack and crash safety survive under conditions on the log and the report |
| RuntimeGenerations.AnyRun | apps/provisioner/internal/projectfs/root.go:326-409 | In every interleaving of stages, commits and restores with faults: `current` is where the calls and reports say, absent or at a complete generation, and every disk state was crash safe; judged call by call from earlier calls and their reports, which are in turn limited to what can fail |
| RuntimeGenerations.LossWasReported | apps/provisioner/internal/projectfs/root.go:326-409 | A torn candidate, an exposed or a stranded generation in the log goes back to an earlier restore or commit of that handle that reported it |
| RuntimeGenerations.CleanRun | apps/provisioner/internal/projectfs/root.go:243-409 | Starting without closures on an installed server, where moving back works and removals work or no handle is committed after its restore: every run keeps `current` at the pointer its reports say, absent or complete, and every disk state crash safe |
| RuntimeGenerations.CommitThenRestore | apps/provisioner/internal/projectfs/root.go:371-397 | For every candidate: the pointer is back exactly unless the commit was stranded, and the runtime was crash safe exactly unless the commit lost its compensation, pointed at a half-removed candidate, or moved the pointer before `generations/` was durable |
| RuntimeGenerations.RestoreThenCommit | apps/provisioner/internal/projectfs/root.go:358-380 | A commit after a successful restore is refused; after a failed one the runtime is crash safe exactly when the candidate was left intact and `generations/` was durable, or the pointer never moved |
| RuntimeGenerations.FirstCommit | apps/provisioner/internal/projectfs/root.go:292-403 | The first commit of a new server is crash safe exactly when the pointer does not move, and a success leaves a secure runtime with a durable `generations/` |
| LegacyMigration.IdentifyLegacyFiles | apps/provisioner/internal/projectfs/root.go:716-732 | Exactly the compatibility names that hold a file or link, each once |
| LegacyMigration.LegacyCleanup.MoveAside | apps/provisioner/internal/projectfs/root.go:775-802 | However far the moves get, every file is in place or recoverable |
| LegacyMigration.LegacyCleanup.Cleanup | apps/provisioner/internal/projectfs/root.go:765-831 | Success removes exactly the named files; failure leaves everything recoverable; no other entry changes |
| LegacyMigration.LegacyCleanup.Rollback | apps/provisioner/internal/projectfs/root.go:840-912 | Success puts the root directory back exactly; repeating it changes nothing |
| LegacyMigration.LegacyCleanup.RestoreBackup | apps/provisioner/internal/projectfs/root.go:914-933 | A file the quarantine lost comes back with its bytes, mode or link target |
| LegacyMigration.CommitThenRestore | apps/provisioner/internal/projectfs/root.go:765-933 | A commit, successful or failed anywhere, then any number of restores: once one succeeds the root directory is the original; where nothing fails the commit and the first restore succeed |
| PasswordRotation.Backend.Begin | apps/provisioner/internal/runtime/rotate.go:191-244 | Only admissible requests get a journal, and nothing but metadata has changed |
| PasswordRotation.Backend.PublishRuntime | apps/provisioner/internal/runtime/rotate.go:245-290 | The new generation is selected with a closure back, or the failure says whether the pointer is back |
| PasswordRotation.Backend.ChangePassword | apps/provisioner/internal/runtime/rotate.go:291-312 | PostgreSQL has the new password, or a reported rollback really undid it |
| PasswordRotation.Backend.Compensate | apps/provisioner/internal/runtime/rotate.go:313-324 | Success means old pointer, old password, old consumers; repeatable |
| PasswordRotation.Backend.VerifyServices | apps/provisioner/internal/runtime/rotate.go:325-370 | Services recreated on the new runtime, or a reported rollback really undid everything |
| PasswordRotation.Backend.ChangeAndVerify | apps/provisioner/internal/runtime/rotate.go:291-370 | Once the role is changed a compensation exists; a reported rollback really undid everything |
| PasswordRotation.Backend.Rotate | apps/provisioner/internal/runtime/rotate.go:179-381 | The callback for a fresh key: all new, or all old when it reports a rollback |
| PasswordRotation.Backend.Publish | apps/provisioner/internal/projectfs/root.go:1166-1197 | A failed metadata write runs the compensation and reports its outcome; the stored record is then the old one |
| PasswordRotation.Backend.RotateFresh | apps/provisioner/internal/runtime/rotate.go:179-409 | A request with a new key: all new, or all old when it reports a rollback, or nothing but the journal when staging panics; its answer is kept exactly when it was saved and the outcome is known |
| PasswordRotation.Backend.RotateDatabasePassword | apps/provisioner/internal/runtime/rotate.go:176-412 | No error: password, selected generation and stored revision are new. Rolled back: password, pointer and stored revision are the old ones. Panic: nothing but the opened journal. Any error: stored revision and configuration unchanged. Replay: nothing changes. Known, saved answers are kept under the key, unknown outcomes are not and leave the new password in place. An admissible request succeeds where nothing fails |
| PasswordRotation.Backend.Confirm | apps/provisioner/internal/runtime/rotate.go:24-45 | The journal closes at the confirmed revision only |
| PasswordRotation.Backend.SelectRollbackRuntime | apps/provisioner/internal/runtime/rotate.go:80-139 | The journal's old generation, or a fresh one with the old password; a panic leaves pointer and generations alone |
| PasswordRotation.Backend.RollbackDatabasePassword | apps/provisioner/internal/runtime/rotate.go:49-171 | Success sets password, pointer, consumers and stored revision back; a repeated key does nothing; an error leaves the record; where nothing fails and the old generation exists it succeeds |
| PasswordRotation.RotateThenRollback | apps/provisioner/internal/runtime/rotate.go:24-171 | Rotation, with or without a confirmation, then rollback restores password, revision and the selected generation's password; a later confirmation is refused |
| PasswordRotation.RotateAgain | apps/provisioner/internal/runtime/rotate.go:176-412 | The same request again repeats a known, saved answer, or fails to write, and changes nothing; after an unknown outcome nothing is stored under its key |
| ServiceLists.Difference | apps/provisioner/internal/runtime/reconcile.go:658-670 | The entries of one list missing from the other, in order |
| ServiceLists.Intersect | apps/provisioner/internal/runtime/reconcile.go:671-683 | The common entries, in the first list's order |
| ServiceLists.Without | apps/provisioner/internal/runtime/reconcile.go:684-692 | The list without one name |
| ServiceLists.Unique | apps/provisioner/internal/runtime/reconcile.go:694-704 | First occurrences, same set |
| ServiceLists.FirstsIsASetList | apps/provisioner/internal/runtime/reconcile.go:694-704 | First occurrences have no duplicates and lose nothing |
| ServiceLists.AffectedServices | apps/provisioner/internal/runtime/reconcile.go:545-632 | The services marked by the changes, in restart order |
| ServiceLists.TouchedIff | apps/provisioner/internal/runtime/reconcile.go:545-623 | Marking change by change marks exactly the services whose own fields differ |
| ServiceLists.AffectedIff | apps/provisioner/internal/runtime/reconcile.go:545-632 | For each service, exactly which changed fields restart it |
| ServiceLists.AffectedInOrder | apps/provisioner/internal/runtime/reconcile.go:624-632 | The database restarts first, then the rest in the fixed order |
| ServiceLists.EnabledIff | apps/provisioner/internal/runtime/reconcile.go:634-656 | A service is enabled exactly when its switch is on, and listed once |
| ServiceLists.AffectedIsSymmetric | apps/provisioner/internal/runtime/reconcile.go:545-632 | A change and its reversal restart the same services, no change none, the template server never |
| ServiceLists.UntouchedIff | apps/provisioner/internal/runtime/reconcile.go:545-632 | Nothing is restarted exactly when the configurations differ at most in revision, Supabase version, Studio credentials, managed certificate and an image-proxy switch without storage |
| ServiceLists.VersionAloneRestartsNothing | apps/provisioner/internal/runtime/reconcile.go:545-632 | A new Supabase version alone restarts nothing |
| Reconcile.UncomparedChangeRunsOld | apps/provisioner/internal/runtime/reconcile.go:234-241 | A reconcile that succeeds on such a change leaves every service as it was |
| Reconcile.PreviousServicesIff | apps/provisioner/internal/runtime/reconcile.go:78-81 | The stored list counts; without one a published record falls back on its switches |
| Reconcile.UndoCovers | apps/provisioner/internal/runtime/reconcile.go:133-160 | Removing what was added and recreating what was affected or disabled undoes every disturbance |
| Reconcile.Backend.Prepare | apps/provisioner/internal/runtime/reconcile.go:76-104 | The candidate is staged and the added, disabled and affected services are determined |
| Reconcile.Backend.RemoveCandidate | apps/provisioner/internal/runtime/reconcile.go:113-143 | A first runtime is taken down; otherwise only added services are touched |
| Reconcile.Backend.ReviveServices | apps/provisioner/internal/runtime/reconcile.go:151-167 | The affected and disabled previous services run from the previous generation |
| Reconcile.Backend.Rollback | apps/provisioner/internal/runtime/reconcile.go:105-188 | Success: exactly the previous services run, each as before or from the previous generation; the pointer is back, or was stranded by the commit on the generation now removed |
| Reconcile.Backend.Apply | apps/provisioner/internal/runtime/reconcile.go:203-242 | Success: exactly the new services run, affected and added ones from the new generation; any outcome disturbs only what a rollback covers |
| Reconcile.Backend.Bootstrap | apps/provisioner/internal/runtime/reconcile.go:206-232 | A first start ends with the new services and the database, all from the new generation |
| Reconcile.Backend.Run | apps/provisioner/internal/runtime/reconcile.go:82-269 | The runtime part succeeds completely, or a reported rollback put services and pointer back, the pointer exactly unless the commit was stranded |
| Reconcile.Backend.Reconcile | apps/provisioner/internal/runtime/reconcile.go:30-307 | Rolled back: previous services, previous generation, and the pointer back exactly unless the commit was stranded. Failed: stored revision, configuration and services unchanged, and services untouched unless it says so. Succeeded: stored and running state new, and the services it names as recreated are exactly the affected ones. Replay: no Compose call. Every answer is kept where the record can be written, and a request that renders succeeds where nothing fails |
| FunctionReleases.CopyIsFaithful | apps/provisioner/internal/projectfs/functions.go:677-714 | A copy is made exactly of trees without links and special files, and equals the tree |
| FunctionReleases.ValidShaIff | apps/provisioner/internal/projectfs/functions.go:562-568 | A checksum is 32 bytes in hex |
| FunctionReleases.FunctionSlot.Switch | apps/provisioner/internal/projectfs/functions.go:601-665 | The live tree and the marker change together, or the live tree is the old one or absent; only a failed removal leaves a leftover of the new tree; a good state stays good when that removal works |
| FunctionReleases.FunctionSlot.Prune | apps/provisioner/internal/projectfs/functions.go:467-484 | Kept releases survive every outcome; success leaves no other release |
| FunctionReleases.FunctionSlot.WriteState | apps/provisioner/internal/projectfs/functions.go:756-765 | Current and previous change together or not at all |
| FunctionReleases.FunctionSlot.Activate | apps/provisioner/internal/projectfs/functions.go:345-423 | The new release is live, marked and current, the old current is previous and kept; the same release again only repairs the live tree, any other kept release is refused; a success keeps a good state, and so does a failure whose undo works; where nothing fails exactly plain trees are activated and only the two releases on record remain |
| FunctionReleases.FunctionSlot.Rollback | apps/provisioner/internal/projectfs/functions.go:500-533 | Current and previous change places and the live tree follows |
| FunctionReleases.FunctionSlot.Restore | apps/provisioner/internal/projectfs/functions.go:537-560 | The activation is undone; the state stays good exactly when both its releases are still there |
| FunctionReleases.FunctionSlot.Delete | apps/provisioner/internal/projectfs/functions.go:427-465 | Success leaves nothing of the function; a refusal touches nothing; working removals mean success |
| FunctionReleases.AnyRun | apps/provisioner/internal/projectfs/functions.go:345-560 | In every run whose removals work the live tree, when present, is the marked release, and marked, current and previous releases exist and are never pruned |
| FunctionReleases.RollbackTwice | apps/provisioner/internal/projectfs/functions.go:500-533 | Two rollbacks cancel |
| FunctionArchive.CollectCandidates | apps/provisioner/internal/projectfs/functions.go:817-838 | The usual layouts and the suggested wrappers, each once |
| FunctionArchive.CheckLayout | apps/provisioner/internal/projectfs/functions.go:839-880 | A candidate is accepted exactly when it covers the archive |
| FunctionArchive.CoversIff | apps/provisioner/internal/projectfs/functions.go:839-880 | A directory covers an archive exactly when its index file is there and all else is under it or a directory on the way down |
| FunctionArchive.MetadataIff | apps/provisioner/internal/projectfs/functions.go:783-789 | Metadata is the __MACOSX directory and every file named .DS_Store or starting with ._ |
| FunctionArchive.ValidNameIff | internal/contracts/functions.go:33-45 | The names the pattern accepts, without main |
| FunctionArchive.TreeIsUnpacked | apps/provisioner/internal/projectfs/functions.go:231-318 | The staged tree holds exactly the files of the archive, each under what follows the prefix |
| FunctionArchive.CandidatesAreLayouts | apps/provisioner/internal/projectfs/functions.go:817-838 | Every candidate is no prefix or a directory with the function's name |
| FunctionArchive.CoveringLayoutIsCandidate | apps/provisioner/internal/projectfs/functions.go:822-838 | No layout that covers the archive is overlooked |
| FunctionArchive.SelectPrefix | apps/provisioner/internal/projectfs/functions.go:816-883 | The chosen prefix covers the archive exactly when some layout does |
| FunctionArchive.PlacementAgrees | apps/provisioner/internal/projectfs/functions.go:243-264 | Under the chosen prefix no entry is misplaced, and exactly the files are written, under their stripped paths |
| FunctionArchive.IndexMeansCovered | apps/provisioner/internal/projectfs/functions.go:278-315 | An index file is staged exactly when the prefix covers the archive |
| FunctionArchive.Extract | apps/provisioner/internal/projectfs/functions.go:231-318 | The staged tree is every file under its stripped path; each refusal has its cause |
| FunctionArchive.StageFunctionRelease | apps/provisioner/internal/projectfs/functions.go:192-321 | Never a bad enclosing directory; for acceptable archives, staged exactly when some layout covers the archive, otherwise a missing index.ts; the staged tree is exactly the unpacked files |
| GoStrings.QuoteRoundTrip | apps/provisioner/internal/render/environment.go:393 | Unquoting undoes quoting |
| GoStrings.QuoteHasNoBreak | apps/provisioner/internal/render/environment.go:393-393 | A quoted value has no control character and stays on one line |
| GoStrings.PlainTextIsKept | apps/provisioner/internal/render/environment.go:393-393 | Plain text without quotes and backslashes is quoted as it stands |
| GoStrings.SplitLines | apps/provisioner/internal/compose/runner.go:193 | Splitting printed lines gives them back |
| GoStrings.TrimIsIdentityIff | apps/provisioner/internal/render/environment.go:383 | Trimming leaves exactly the strings without a space at either end |
| GoStrings.TrimStrips | apps/provisioner/internal/render/environment.go:383-383 | Trimming takes exactly the spaces at both ends |
| DotEnv.CheckNeedsQuote | apps/provisioner/internal/render/environment.go:383-392 | Quotes are used exactly for empty values, a space at an end, control characters, backslash, quotes, hash and dollar |
| DotEnv.PrintedValueIsRead | apps/provisioner/internal/render/environment.go:382-394 | A printed value is read back exactly when it is not empty and has no dollar sign, and stays on one line |
| DotEnv.KeptLineDefinesNoOverride | apps/provisioner/internal/render/environment.go:403-412 | A template line left alone never shadows an override |
| DotEnv.RewriteTemplate | apps/provisioner/internal/render/environment.go:400-415 | Line by line, only definitions of overrides are replaced |
| DotEnv.AppendMissing | apps/provisioner/internal/render/environment.go:416-425 | Every override the template does not mention is appended |
| DotEnv.RenderDotEnv | apps/provisioner/internal/render/environment.go:396-427 | The file is the rewritten template followed by the missing overrides |
| DotEnv.RequiredDotEnvValue | apps/provisioner/internal/compose/runner.go:185-212 | The first definition of the key decides |
| DotEnv.PrintedFileSplits | apps/provisioner/internal/render/environment.go:402-415 | Lines that are not overridden stay verbatim and in place |
| DotEnv.RoundTrip | apps/provisioner/internal/render/environment.go:396-427 | Reading an override returns it exactly when it is not empty and has no dollar sign |
| DotEnv.OtherKeysUnchanged | apps/provisioner/internal/compose/runner.go:193-211 | Any other key reads as it does in the template |
| DotEnv.PrintAndRead | apps/provisioner/internal/compose/runner.go:185-212 | Printer and reader together |
| ServiceSelection.SelectServices | apps/provisioner/internal/render/services.go:55-94 | What is switched on and available, the first available gateway, and the helpers of functions, pooler and logs |
| ServiceSelection.SelectsIff | apps/provisioner/internal/render/services.go:73-94 | Each capability is selected exactly when its own switch is on and the template has it |
| ServiceSelection.SelectsHelpersIff | apps/provisioner/internal/render/services.go:55-94 | Helpers follow the service they help; the first gateway of the template serves |
| ServiceSelection.PruneDependencies | apps/provisioner/internal/render/render.go:362-390 | Exactly the selected names stay and an empty depends_on goes; a single name is left alone |
| ServiceSelection.FilterServices | apps/provisioner/internal/render/render.go:123-155 | Every selected service is emitted with its template's dependencies pruned to the selected ones, a single name unpruned |
| ServiceSelection.RenderServices | apps/provisioner/internal/render/render.go:109-192 | Rendered exactly when consistent, provided for and pinned; every capability follows its switch, every helper and gateway also the template, and what a service needs is emitted; the Manager's check accepts it, and it is dependency closed exactly unless an unpruned single name is not emitted |
| ServiceSelection.CanonicalServices | apps/manager/internal/configuration/orchestrator.go:1050-1067 | Helpers dropped, all gateways counted as one |
| ServiceSelection.ManagerServicesIff | apps/manager/internal/configuration/orchestrator.go:1017-1039 | The Manager expects a service exactly when its switch is on |
| ServiceSelection.SameServicesIff | apps/manager/internal/configuration/orchestrator.go:1041-1048 | For lists without duplicates: same capabilities and same presence of a gateway |
| ServiceSelection.ManagerAccepts | apps/manager/internal/configuration/orchestrator.go:1017-1080 | Every rendered list passes the check against the Manager's own list |
| ServiceSelection.GatewayRestartsIff | apps/provisioner/internal/runtime/reconcile.go:545-632 | A changed address or gateway setting recreates the emitted gateway exactly when it is called api-gw |
| ServiceSelection.KongKeepsOldPort | apps/provisioner/internal/render/services.go:63-72 | With kong as the only gateway a new API port recreates no gateway |
| NginxSite.CredentialIsManaged | apps/nginxproxy/internal/site/store.go:304-311 | The derived credential name passes the credential check |
| NginxSite.ManagedNameIff | apps/nginxproxy/internal/site/store.go:14-17 | A managed name is the prefix, a slug of 1 to 63 characters and the ending |
| NginxSite.Store.TakeSnapshot | apps/nginxproxy/internal/site/store.go:175-228 | Site file, link and credential as they are, or an error for an unexpected kind |
| NginxSite.Store.Restore | apps/nginxproxy/internal/site/store.go:245-267 | Success puts all three back; no other site is touched |
| NginxSite.Store.RestoreAfterFailure | apps/nginxproxy/internal/site/store.go:230-243 | Without a restore error, files and running configuration are the snapshot's; an error needs one of its operations to fail |
| NginxSite.Store.Install | apps/nginxproxy/internal/site/store.go:62-76 | Credential, site file and link as rendered, touching no other site |
| NginxSite.Store.Apply | apps/nginxproxy/internal/site/store.go:45-84 | Installed and loaded, with the rendered site, the link to it and the credential as given, or everything as before unless an operation of the restore failed, never touching another site; where nothing fails a well-formed site is installed |
| NginxSite.Store.Remove | apps/nginxproxy/internal/site/store.go:105-134 | Site, link and credential gone and unloaded, or everything as before unless an operation of the restore failed, never touching another site; where nothing fails it is removed |
| NginxSite.AnyRun | apps/nginxproxy/internal/site/store.go:45-134 | While no restore failed, and so wherever restores work, disk and running configuration agree and hold exactly the successful calls |

## Left out

- HTTP handlers, clients, configuration loading, the web interface, cryptography and the Docker, PostgreSQL and YAML engines themselves.
- `operation_secrets`, the `project_services` rows and `site_url` of a projection, and diagnostics: written or read without a decision.
- `CommitCanonicalConfiguration` (`apps/manager/internal/store/configuration.go:397-416`): unfenced and without ports, outside the port and fence models. `ReleasePort` and project deletion likewise.
- Retried rotations that find their own journal, and the phases of the Manager's `RunDatabasePasswordRotation`.
- The legacy migration inside commit and restore of `RuntimeRoot` only succeeds or fails there; what it does is `LegacyMigration`. File mode bits beyond the permissions are not kept by either.
- Mailer template files in a generation, the contents of Compose files, and hydration of a server directory from the embedded template.
- What a failed fsync does to a later one: a later successful sync is taken to make the directory durable.
- Proxy state in a reconcile (only whether its calls succeed), health polling, and the data directory that a first rollback resets.
- Edge functions still published by a symlink of an older version.
- `path.Clean` and the zip format: an archive entry carries its cleaned path and whether it is safe.
- GoStrings.QuoteRoundTrip: the reader's octal escapes and byte escapes from `\x80` on are not modelled, because quoting never writes them; strings are valid Unicode.
- DotEnv.AppendMissing: the source sorts the appended keys; the results hold for every order.
- ServiceSelection.RenderServices: the source sorts the emitted names; the Manager's check does not depend on order. Template merging and the other renderer checks only make it refuse.
- ConfigurationStore.Store.TryReservePorts: inserts in a fixed order of kinds where the source follows map order; the outcome does not depend on it.
- PortReservation.ReserveMany: a failing host probe and concurrent reservations are not modelled.
- Field-by-field validators, presets, the operation status machine and directory permissions, which would add only easy members.
