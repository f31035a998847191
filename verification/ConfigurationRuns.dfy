/** Whole runs of configuration transactions, in any order and over any number of projects. */
module ConfigurationRuns {
  import opened Common
  import opened Configuration
  import opened ConfigurationTables
  import opened ConfigurationInvariants

  datatype Step =
    | Admitting(admission: Admission, row: Option<OperationId>)
    | Renewing(project: ProjectId, owner: OperationId, fence: int, now: int, ttl: int)
    | Releasing(project: ProjectId, owner: OperationId, fence: int)
    | Acquiring(project: ProjectId, owner: OperationId, operation: OperationId, now: int, ttl: int)
    | MarkingGood(project: ProjectId, revision: int, owner: OperationId, fence: int, phase: string)
    | Restoring(project: ProjectId, revision: int, owner: OperationId, fence: int)
    | Publishing(project: ProjectId, revision: int, kind: string, envelope: Envelope)
    | Creating(project: ProjectId, configuration: Config, secrets: map<string, Envelope>)
    | Reserving(project: ProjectId, ports: map<PortKind, nat>)
    | Persisting(project: ProjectId, configuration: Config)
    | SettingStatus(operation: OperationId, status: Status)
    | SettingPhase(operation: OperationId, phase: string)

  function Attempt(t: Tables, s: Step): Outcome {
    match s
    case Admitting(a, row) => Admit(t, a, row)
    case Renewing(p, owner, fence, now, ttl) => Renew(t, p, owner, fence, now, ttl)
    case Releasing(p, owner, fence) => Release(t, p, owner, fence)
    case Acquiring(p, owner, operation, now, ttl) => Acquire(t, p, owner, operation, now, ttl)
    case MarkingGood(p, revision, owner, fence, phase) => MarkGood(t, p, revision, owner, fence, phase)
    case Restoring(p, revision, owner, fence) => Restore(t, p, revision, owner, fence)
    case Publishing(p, revision, kind, envelope) => Publish(t, p, revision, kind, envelope)
    case Creating(p, c, secrets) => Create(t, p, c, secrets)
    case Reserving(p, ports) => TryReserve(t, p, ports)
    case Persisting(p, c) => PersistAllocated(t, p, c)
    case SettingStatus(o, status) =>
      Committed(if o in t.operations then t.(operations := t.operations[o := t.operations[o].(status := status)]) else t)
    case SettingPhase(o, phase) => Committed(t.(operations := SetPhase(t.operations, o, phase)))
  }

  /** The tables after a step: an aborted transaction changes nothing. */
  function Apply(t: Tables, s: Step): Tables {
    match Attempt(t, s)
    case Committed(after) => after
    case Aborted(_) => t
  }

  function Run(t: Tables, steps: seq<Step>): Tables
    decreases |steps|
  {
    if steps == [] then t else Run(Apply(t, steps[0]), steps[1..])
  }

  /**
   * What the callers of a step guarantee: admission names the stored revision, publication and undo
   * come after installation, undo is never issued for a good revision, and installation persists the
   * ports it was given.
   */
  ghost predicate Disciplined(t: Tables, s: Step) {
    match s
    case Admitting(a, row) =>
      a.project in t.projects ==> a.expectedRevision == t.projects[a.project].revision
    case MarkingGood(p, revision, owner, fence, phase) => p in t.projects ==> Installed(t, p)
    case Restoring(p, revision, owner, fence) => p in t.projects ==> Installed(t, p) && t.projects[p].lastGood < revision
    case Persisting(p, c) =>
      p in t.projects ==>
        && t.projects[p].revision == t.projects[p].lastGood
        && t.projects[p].domain == c.domain
        && OwnsPorts(t.allocations, p, PortEntries(c))
    case _ => true
  }

  ghost predicate DisciplinedRun(t: Tables, steps: seq<Step>)
    decreases |steps|
  {
    steps != [] ==> Disciplined(t, steps[0]) && DisciplinedRun(Apply(t, steps[0]), steps[1..])
  }

  // ---------------------------------------------------------------------------------------------
  // One step
  // ---------------------------------------------------------------------------------------------

  lemma LeaseStepKeepsInv(t: Tables, s: Step)
    requires Inv(t) && (s.Renewing? || s.Releasing? || s.Acquiring?)
    ensures Inv(Apply(t, s))
  {
    hide Ledger, Pending, Stored, OwnerError, Blank, Admit, MarkGood, Restore, Publish, Create, TryReserve, PersistAllocated;
  }

  lemma CreateKeepsInv(t: Tables, p: ProjectId, c: Config, secrets: map<string, Envelope>)
    requires Inv(t) && Create(t, p, c, secrets).Committed?
    ensures Inv(Create(t, p, c, secrets).tables)
  {
    hide Resources, Redact, Redacted, ReservedFor;
    RedactedIgnoresRevision(Redact(c), 1);
  }

  ghost predicate AllClaimed(t: Tables, p: ProjectId, ports: map<PortKind, nat>, kinds: seq<PortKind>, claimed: map<nat, Allocation>) {
    && (forall port | port in t.allocations :: port in claimed && claimed[port] == t.allocations[port])
    && (forall kind | kind in kinds && kind in ports :: ports[kind] in claimed && claimed[ports[kind]] == Allocation(p, kind))
    && (forall port | port in claimed && port !in t.allocations ::
         && claimed[port].project == p && claimed[port].kind in kinds && claimed[port].kind in ports
         && ports[claimed[port].kind] == port && Port(port) !in t.reservations && !KindTaken(t.allocations, p, claimed[port].kind))
  }

  ghost predicate EachKindOnce(kinds: seq<PortKind>) {
    forall i, j | 0 <= i < j < |kinds| :: kinds[i] != kinds[j]
  }

  /** One more claim adds one row for a kind that had none. */
  lemma ClaimPortKeepsKindsUnique(t: Tables, claimed: map<nat, Allocation>, p: ProjectId, kind: PortKind, port: nat)
    requires KindsUnique(claimed) && ClaimPort(t, claimed, p, kind, port).Some?
    ensures KindsUnique(ClaimPort(t, claimed, p, kind, port).value)
  {
  }

  lemma ClaimPortKeepsClaimed(t: Tables, p: ProjectId, ports: map<PortKind, nat>, front: seq<PortKind>, claimed: map<nat, Allocation>, last: PortKind)
    requires AllClaimed(t, p, ports, front, claimed) && last in ports && last !in front
    requires ClaimPort(t, claimed, p, last, ports[last]).Some?
    ensures AllClaimed(t, p, ports, front + [last], ClaimPort(t, claimed, p, last, ports[last]).value)
  {
  }

  /** A set of ports is claimed in full or refused, and a claimed one adds exactly those ports. */
  lemma {:induction false} ClaimPortsEffect(t: Tables, p: ProjectId, ports: map<PortKind, nat>, kinds: seq<PortKind>)
    requires EachKindOnce(kinds) && KindsUnique(t.allocations)
    ensures var claimed := ClaimPorts(t, p, ports, kinds);
      claimed.Some? ==> AllClaimed(t, p, ports, kinds, claimed.value) && KindsUnique(claimed.value)
  {
    if kinds != [] {
      hide KindsUnique, ClaimPort, KindTaken;
      var front, last := kinds[..|kinds| - 1], kinds[|kinds| - 1];
      ClaimPortsEffect(t, p, ports, front);
      assert kinds == front + [last];
      if ClaimPorts(t, p, ports, kinds).Some? {
        var claimed := ClaimPorts(t, p, ports, front).value;
        if last in ports {
          ClaimPortKeepsClaimed(t, p, ports, front, claimed, last);
          ClaimPortKeepsKindsUnique(t, claimed, p, last, ports[last]);
        } else {
          assert AllClaimed(t, p, ports, kinds, claimed);
        }
      }
    }
  }

  lemma KindsAreDistinct()
    ensures EachKindOnce(KINDS) && forall kind: PortKind :: kind in KINDS
  {
    forall kind: PortKind
      ensures kind in KINDS
    {
      match kind
      case API => assert KINDS[0] == kind;
      case STUDIO => assert KINDS[1] == kind;
      case DATABASE => assert KINDS[2] == kind;
      case POOLER => assert KINDS[3] == kind;
      case POOLER_TRANSACTION => assert KINDS[4] == kind;
      case POOLER_SESSION => assert KINDS[5] == kind;
    }
  }

  lemma ReserveKeepsInv(t: Tables, p: ProjectId, ports: map<PortKind, nat>)
    requires Inv(t) && TryReserve(t, p, ports).Committed?
    ensures Inv(TryReserve(t, p, ports).tables)
    ensures forall q | Installed(t, q) :: Installed(TryReserve(t, p, ports).tables, q)
  {
    hide Ledger, Pending, Redacted, PortEntries, KindsUnique, FencesBound, ClaimPorts;
    KindsAreDistinct();
    ClaimPortsEffect(t, p, ports, KINDS);
  }

  lemma PersistKeepsInv(t: Tables, p: ProjectId, c: Config)
    requires Inv(t) && PersistAllocated(t, p, c).Committed? && Disciplined(t, Persisting(p, c))
    ensures Inv(PersistAllocated(t, p, c).tables) && Installed(PersistAllocated(t, p, c).tables, p)
  {
    hide Resources, ReservedFor, PersistAllocated, PortEntries, Redact, Redacted, KindsUnique;
    PersistShape(t, p, c);
    PersistPorts(t, p, c);
  }

  lemma PersistPorts(t: Tables, p: ProjectId, c: Config)
    requires PersistAllocated(t, p, c).Committed?
    requires PortsExclusive(t.allocations, t.reservations) && KindsUnique(t.allocations)
    requires OwnsPorts(t.allocations, p, PortEntries(c))
    ensures var after := PersistAllocated(t, p, c).tables;
      && PortsExclusive(after.allocations, t.reservations) && KindsUnique(after.allocations)
      && Projected(t.allocations, p, PortEntries(c), after.allocations)
      && PortEntries(Redact(c).(revision := t.projects[p].revision)) == PortEntries(c)
  {
    hide Project, Redact, Resources, Projected;
    var at := Revision(p, t.projects[p].revision);
    var stored := Redact(c).(revision := at.number);
    var config := c.(revision := at.number);
    ClaimsIgnoreSecrets(c, config);
    ClaimsIgnoreSecrets(c, stored);
    ProjectKeepsPorts(t.(aggregates := t.aggregates[at := stored]), p, config);
  }

  lemma PersistShape(t: Tables, p: ProjectId, c: Config)
    requires PersistAllocated(t, p, c).Committed?
    ensures p in t.projects && Revision(p, t.projects[p].revision) in t.aggregates
    ensures var at := Revision(p, t.projects[p].revision);
      var stored := Redact(c).(revision := at.number);
      var after := PersistAllocated(t, p, c).tables;
      && Redacted(stored)
      && after.aggregates == t.aggregates[at := stored]
      && after.canonical == t.canonical[p := stored]
      && after.projects == t.projects[p := t.projects[p].(domain := c.domain)]
      && after.reservations == t.reservations && after.leases == t.leases && after.payloads == t.payloads
  {
  }

  lemma AdmittingKeepsInv(t: Tables, a: Admission, row: Option<OperationId>)
    requires Inv(t) && Disciplined(t, Admitting(a, row))
    ensures Inv(Apply(t, Admitting(a, row)))
  {
    hide Inv, AdmitError, Admitted, Unheld;
    if AdmitError(t, a, row).None? {
      AdmitFacts(t, a, row);
      AdmittedKeepsInv(t, a, row);
    }
  }

  lemma MarkingGoodKeepsInv(t: Tables, p: ProjectId, revision: int, owner: OperationId, fence: int, phase: string)
    requires Inv(t) && Disciplined(t, MarkingGood(p, revision, owner, fence, phase))
    ensures Inv(Apply(t, MarkingGood(p, revision, owner, fence, phase)))
  {
    hide Inv, Installed, MarkedGood;
    if MarkGood(t, p, revision, owner, fence, phase).Committed? {
      MarkedGoodKeepsInv(t, p, owner, phase);
    }
  }

  lemma RestoringKeepsInv(t: Tables, p: ProjectId, revision: int, owner: OperationId, fence: int)
    requires Inv(t) && Disciplined(t, Restoring(p, revision, owner, fence))
    ensures Inv(Apply(t, Restoring(p, revision, owner, fence)))
  {
    hide Inv, Installed, Undone;
    if Restore(t, p, revision, owner, fence).Committed? && t.projects[p].revision == revision {
      UndoneKeepsInv(t, p, owner);
    }
  }

  lemma InstallingKeepsInv(t: Tables, s: Step)
    requires Inv(t) && Disciplined(t, s) && (s.Creating? || s.Reserving? || s.Persisting?)
    ensures Inv(Apply(t, s))
  {
    hide Inv, TryReserve, PersistAllocated, Create;
    match s
    case Creating(p, c, secrets) =>
      if Create(t, p, c, secrets).Committed? {
        CreateKeepsInv(t, p, c, secrets);
      }
    case Reserving(p, ports) =>
      if TryReserve(t, p, ports).Committed? {
        ReserveKeepsInv(t, p, ports);
      }
    case Persisting(p, c) =>
      if PersistAllocated(t, p, c).Committed? {
        PersistKeepsInv(t, p, c);
      }
  }

  lemma RecordKeepingKeepsInv(t: Tables, s: Step)
    requires Inv(t) && (s.Publishing? || s.SettingStatus? || s.SettingPhase?)
    ensures Inv(Apply(t, s))
  {
    hide Ledger, Pending, Stored, PortsExclusive, KindsUnique, FencesBound;
  }

  /** Every disciplined step keeps the invariant, whatever project it is about. */
  lemma StepKeepsInv(t: Tables, s: Step)
    requires Inv(t) && Disciplined(t, s)
    ensures Inv(Apply(t, s))
  {
    hide Inv, Apply, Disciplined;
    match s
    case Admitting(a, row) => AdmittingKeepsInv(t, a, row);
    case MarkingGood(p, revision, owner, fence, phase) => MarkingGoodKeepsInv(t, p, revision, owner, fence, phase);
    case Restoring(p, revision, owner, fence) => RestoringKeepsInv(t, p, revision, owner, fence);
    case Creating(_, _, _) => InstallingKeepsInv(t, s);
    case Reserving(_, _) => InstallingKeepsInv(t, s);
    case Persisting(_, _) => InstallingKeepsInv(t, s);
    case Renewing(_, _, _, _, _) => LeaseStepKeepsInv(t, s);
    case Releasing(_, _, _) => LeaseStepKeepsInv(t, s);
    case Acquiring(_, _, _, _, _) => LeaseStepKeepsInv(t, s);
    case Publishing(_, _, _, _) => RecordKeepingKeepsInv(t, s);
    case SettingStatus(_, _) => RecordKeepingKeepsInv(t, s);
    case SettingPhase(_, _) => RecordKeepingKeepsInv(t, s);
  }

  // ---------------------------------------------------------------------------------------------
  // Whole runs
  // ---------------------------------------------------------------------------------------------

  const EMPTY := Tables(map[], map[], map[], map[], map[], map[], map[], map[], map[], map[], map[])

  lemma {:induction false} RunKeepsInv(t: Tables, steps: seq<Step>)
    requires Inv(t) && DisciplinedRun(t, steps)
    ensures Inv(Run(t, steps))
    decreases |steps|
  {
    if steps != [] {
      hide Inv, Apply, Disciplined;
      StepKeepsInv(t, steps[0]);
      RunKeepsInv(Apply(t, steps[0]), steps[1..]);
    }
  }

  ghost predicate Holds(t: Tables, p: ProjectId, port: nat) {
    || (port in t.allocations && t.allocations[port].project == p)
    || (Port(port) in t.reservations && t.reservations[Port(port)].project == p)
  }

  /** After any run from the empty database, no port is allocated to or reserved by two projects. */
  lemma NoPortIsHeldTwice(steps: seq<Step>)
    requires DisciplinedRun(EMPTY, steps)
    ensures var t := Run(EMPTY, steps); forall port, p, q | Holds(t, p, port) && Holds(t, q, port) :: p == q
  {
    assert Inv(EMPTY);
    RunKeepsInv(EMPTY, steps);
    hide Run, DisciplinedRun;
  }

  /**
   * After any run, the canonical row is the stored snapshot at the current revision, both revisions
   * still have their snapshot, and redacting it again would change nothing.
   */
  lemma LedgerHoldsAfterEveryRun(steps: seq<Step>, p: ProjectId)
    requires DisciplinedRun(EMPTY, steps) && p in Run(EMPTY, steps).projects
    ensures var t := Run(EMPTY, steps);
      && 1 <= t.projects[p].lastGood <= t.projects[p].revision
      && Revision(p, t.projects[p].lastGood) in t.aggregates
      && Revision(p, t.projects[p].revision) in t.aggregates
      && p in t.canonical
      && t.canonical[p] == Redact(t.aggregates[Revision(p, t.projects[p].revision)])
      && t.canonical[p].revision == t.projects[p].revision
  {
    var t := Run(EMPTY, steps);
    assert Inv(EMPTY);
    RunKeepsInv(EMPTY, steps);
    hide Run, DisciplinedRun;
    assert Ledger(t.projects[p], p, t.aggregates, t.canonical);
    RedactIsIdempotent(t.aggregates[Revision(p, t.projects[p].revision)]);
  }

  // ---------------------------------------------------------------------------------------------
  // Installation is stable
  // ---------------------------------------------------------------------------------------------

  /** The steps of one project leave another project's last good snapshot, domain and ports alone. */
  ghost predicate SameInstallation(t: Tables, after: Tables, q: ProjectId) {
    && q in t.projects && q in after.projects
    && after.projects[q].lastGood == t.projects[q].lastGood
    && after.projects[q].domain == t.projects[q].domain
    && (var r := Revision(q, t.projects[q].lastGood);
        r in t.aggregates ==> r in after.aggregates && after.aggregates[r] == t.aggregates[r])
    && (forall port | port in t.allocations && t.allocations[port].project == q ::
         port in after.allocations && after.allocations[port] == t.allocations[port])
  }

  lemma SameInstallationKeepsInstalled(t: Tables, after: Tables, q: ProjectId)
    requires Installed(t, q) && SameInstallation(t, after, q)
    ensures Installed(after, q)
  {
  }

  lemma AdmittingKeepsInstallation(t: Tables, a: Admission, q: ProjectId)
    requires LedgerKept(t) && a.project in t.projects && a.expectedRevision == t.projects[a.project].revision && q in t.projects
    ensures SameInstallation(t, Admitted(t, a), q)
  {
  }

  lemma InvParts(t: Tables)
    requires Inv(t)
    ensures LedgerKept(t) && Stored(t.aggregates) && PortsExclusive(t.allocations, t.reservations) && KindsUnique(t.allocations)
  {
  }

  lemma InstalledParts(t: Tables, q: ProjectId)
    requires Installed(t, q)
    ensures q in t.projects && Revision(q, t.projects[q].lastGood) in t.aggregates
  {
  }

  lemma AdmittingKeepsInstalled(t: Tables, a: Admission, row: Option<OperationId>, q: ProjectId)
    requires Inv(t) && Disciplined(t, Admitting(a, row)) && Installed(t, q)
    ensures Installed(Apply(t, Admitting(a, row)), q)
  {
    hide Inv, Installed, AdmitError, Admitted, Unheld, SameInstallation, LedgerKept, Stored, KindsUnique, PortsExclusive;
    if AdmitError(t, a, row).None? {
      AdmitFacts(t, a, row);
      InvParts(t);
      InstalledParts(t, q);
      AdmittingKeepsInstallation(t, a, q);
      SameInstallationKeepsInstalled(t, Admitted(t, a), q);
    }
  }

  lemma LeaseStepsTouchLeasesOnly(t: Tables, s: Step)
    requires s.Renewing? || s.Releasing? || s.Acquiring?
    ensures Apply(t, s) == t.(leases := Apply(t, s).leases, payloads := Apply(t, s).payloads)
  {
  }

  lemma RecordsTouchRecordsOnly(t: Tables, s: Step)
    requires s.Publishing? || s.SettingStatus? || s.SettingPhase?
    ensures Apply(t, s) == t.(secrets := Apply(t, s).secrets, operations := Apply(t, s).operations)
  {
  }

  lemma CreatingKeepsInstallation(t: Tables, p: ProjectId, c: Config, secrets: map<string, Envelope>, q: ProjectId)
    requires q in t.projects && Create(t, p, c, secrets).Committed?
    ensures SameInstallation(t, Create(t, p, c, secrets).tables, q)
  {
  }

  lemma MarkingGoodKeepsInstallation(t: Tables, p: ProjectId, owner: OperationId, phase: string, q: ProjectId)
    requires Inv(t) && Installed(t, p) && q in t.projects && q != p && MarkedGood(t, p, owner, phase).Some?
    ensures SameInstallation(t, MarkedGood(t, p, owner, phase).value, q)
  {
    hide Inv, MarkedGood, Installed, PortEntries, LedgerKept, Stored, KindsUnique, PortsExclusive, FreeOfOthers;
    InvParts(t);
    InstalledParts(t, p);
    OwnConfigurationsAreFree(t, p);
    MarkedGoodShape(t, p, owner, phase);
  }

  lemma UndoingKeepsInstallation(t: Tables, p: ProjectId, owner: OperationId, q: ProjectId)
    requires Inv(t) && Installed(t, p) && q in t.projects && q != p
    requires Revision(p, t.projects[p].revision) in t.markers && Undone(t, p, owner).Some?
    ensures SameInstallation(t, Undone(t, p, owner).value, q)
  {
    hide Inv, Undone, Installed, PortEntries, LedgerKept, Stored, KindsUnique, PortsExclusive, FreeOfOthers;
    InvParts(t);
    InstalledParts(t, p);
    OwnConfigurationsAreFree(t, p);
    UndoneShape(t, p, owner);
  }

  lemma MarkingGoodKeepsInstalled(t: Tables, p: ProjectId, revision: int, owner: OperationId, fence: int, phase: string, q: ProjectId)
    requires Inv(t) && Disciplined(t, MarkingGood(p, revision, owner, fence, phase)) && Installed(t, q)
    ensures Installed(Apply(t, MarkingGood(p, revision, owner, fence, phase)), q)
  {
    hide Inv, Installed, MarkedGood, SameInstallation;
    InstalledParts(t, q);
    if MarkGood(t, p, revision, owner, fence, phase).Committed? {
      if q == p {
        MarkedGoodKeepsInv(t, p, owner, phase);
      } else {
        MarkingGoodKeepsInstallation(t, p, owner, phase, q);
        SameInstallationKeepsInstalled(t, MarkedGood(t, p, owner, phase).value, q);
      }
    }
  }

  lemma RestoringKeepsInstalled(t: Tables, p: ProjectId, revision: int, owner: OperationId, fence: int, q: ProjectId)
    requires Inv(t) && Disciplined(t, Restoring(p, revision, owner, fence)) && Installed(t, q)
    ensures Installed(Apply(t, Restoring(p, revision, owner, fence)), q)
  {
    hide Inv, Installed, Undone, SameInstallation;
    InstalledParts(t, q);
    if Restore(t, p, revision, owner, fence).Committed? && t.projects[p].revision == revision {
      if q == p {
        UndoneKeepsInv(t, p, owner);
      } else {
        UndoingKeepsInstallation(t, p, owner, q);
        SameInstallationKeepsInstalled(t, Undone(t, p, owner).value, q);
      }
    }
  }

  lemma PersistingKeepsInstalled(t: Tables, p: ProjectId, c: Config, q: ProjectId)
    requires Inv(t) && Disciplined(t, Persisting(p, c)) && Installed(t, q)
    ensures Installed(Apply(t, Persisting(p, c)), q)
  {
    hide PersistAllocated, PortEntries, Redact, Redacted, Resources;
    if PersistAllocated(t, p, c).Committed? {
      if q == p {
        PersistKeepsInv(t, p, c);
      } else {
        PersistShape(t, p, c);
        PersistPorts(t, p, c);
        SameInstallationKeepsInstalled(t, PersistAllocated(t, p, c).tables, q);
      }
    }
  }

  lemma UntouchedKeepsInstalled(t: Tables, s: Step, q: ProjectId)
    requires Installed(t, q)
    requires s.Renewing? || s.Releasing? || s.Acquiring? || s.Publishing? || s.SettingStatus? || s.SettingPhase?
    ensures Installed(Apply(t, s), q)
  {
    hide Apply, PortEntries, OwnsPorts;
    if s.Renewing? || s.Releasing? || s.Acquiring? {
      LeaseStepsTouchLeasesOnly(t, s);
    } else {
      RecordsTouchRecordsOnly(t, s);
    }
  }

  /** Once installed, a project stays installed under every disciplined step of every project. */
  lemma StepKeepsInstalled(t: Tables, s: Step, q: ProjectId)
    requires Inv(t) && Disciplined(t, s) && Installed(t, q)
    ensures Installed(Apply(t, s), q)
  {
    hide Inv, Installed, Disciplined, SameInstallation;
    InstalledParts(t, q);
    match s
    case Admitting(a, row) => AdmittingKeepsInstalled(t, a, row, q);
    case MarkingGood(p, revision, owner, fence, phase) => MarkingGoodKeepsInstalled(t, p, revision, owner, fence, phase, q);
    case Restoring(p, revision, owner, fence) => RestoringKeepsInstalled(t, p, revision, owner, fence, q);
    case Persisting(p, c) => PersistingKeepsInstalled(t, p, c, q);
    case Reserving(p, ports) =>
      hide TryReserve;
      if TryReserve(t, p, ports).Committed? {
        ReserveKeepsInv(t, p, ports);
      }
    case Creating(p, c, secrets) =>
      hide Create;
      if Create(t, p, c, secrets).Committed? {
        CreatingKeepsInstallation(t, p, c, secrets, q);
        SameInstallationKeepsInstalled(t, Create(t, p, c, secrets).tables, q);
      }
    case _ => UntouchedKeepsInstalled(t, s, q);
  }

  /** Installation survives whole runs, so the discipline on later steps asks nothing new of an installed project. */
  lemma {:induction false} RunKeepsInstalled(t: Tables, steps: seq<Step>, q: ProjectId)
    requires Inv(t) && DisciplinedRun(t, steps) && Installed(t, q)
    ensures Installed(Run(t, steps), q)
    decreases |steps|
  {
    if steps != [] {
      hide Inv, Apply, Disciplined, Installed;
      StepKeepsInv(t, steps[0]);
      StepKeepsInstalled(t, steps[0], q);
      RunKeepsInstalled(Apply(t, steps[0]), steps[1..], q);
    }
  }
}
