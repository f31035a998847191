/**
 * When the configuration transactions commit: the records every run keeps, the order in which a
 * publication moves ports, and who can admit, publish and undo.
 */
module ConfigurationCommits {
  import opened Common
  import opened Configuration
  import opened ConfigurationTables
  import opened ConfigurationInvariants
  import opened ConfigurationRuns

  // ---------------------------------------------------------------------------------------------
  // Records
  // ---------------------------------------------------------------------------------------------

  /** Every stored revision has its secret snapshot, with a marker that says whether it is empty. */
  ghost predicate SnapshotsKept(
    aggregates: map<Revision, Config>, versions: map<Revision, map<string, Envelope>>, markers: map<Revision, bool>) {
    && (forall r | r in aggregates :: r in markers)
    && (forall r | r in markers :: r in aggregates && (markers[r] ==> r in versions && versions[r] != map[]))
    && (forall r | r in versions && versions[r] != map[] :: r in aggregates)
  }

  /** A payload belongs to an operation of its project, and a lease to such an operation. */
  ghost predicate OperationsKept(
    leases: map<ProjectId, Lease>, operations: map<OperationId, OperationRow>, payloads: map<OperationId, Payload>) {
    && (forall o | o in payloads :: o in operations && operations[o].project == payloads[o].project)
    && (forall p | p in leases :: !Blank(leases[p].owner.text) && leases[p].owner in payloads)
  }

  /** `UNIQUE (domain)` of `projects`. */
  ghost predicate DomainsDiffer(projects: map<ProjectId, ProjectRow>) {
    forall p, q | p in projects && q in projects && projects[p].domain == projects[q].domain :: p == q
  }

  ghost predicate Records(t: Tables) {
    && SnapshotsKept(t.aggregates, t.versions, t.markers)
    && OperationsKept(t.leases, t.operations, t.payloads)
    && DomainsDiffer(t.projects)
  }

  lemma AdmittingKeepsRecords(t: Tables, a: Admission)
    requires Records(t) && a.project in t.projects && !Blank(a.owner.text) && a.operation == a.owner
    requires a.operation !in t.operations
    ensures Records(Admitted(t, a))
  {
    hide Redact, Resources, Blank, OperationsKept, SnapshotsKept;
    AdmittingKeepsOperations(t, a);
    var next := Revision(a.project, t.projects[a.project].revision + 1);
    SnapshotAdded(t, next, Redact(a.configuration).(revision := next.number), t.SecretsOf(a.project));
  }

  lemma SnapshotAdded(t: Tables, at: Revision, c: Config, secrets: map<string, Envelope>)
    requires SnapshotsKept(t.aggregates, t.versions, t.markers)
    ensures SnapshotsKept(t.aggregates[at := c], t.versions[at := secrets], t.markers[at := secrets != map[]])
  {
  }

  lemma SnapshotRemoved(t: Tables, at: Revision)
    requires SnapshotsKept(t.aggregates, t.versions, t.markers)
    ensures SnapshotsKept(t.aggregates - {at}, t.versions - {at}, t.markers - {at})
  {
  }

  lemma PhaseKeepsOperations(t: Tables, leases: map<ProjectId, Lease>, o: OperationId, phase: string)
    requires OperationsKept(t.leases, t.operations, t.payloads)
    requires forall p | p in leases :: p in t.leases && leases[p] == t.leases[p]
    ensures OperationsKept(leases, SetPhase(t.operations, o, phase), t.payloads)
  {
    hide Blank;
  }

  lemma AdmittingKeepsOperations(t: Tables, a: Admission)
    requires OperationsKept(t.leases, t.operations, t.payloads) && a.project in t.projects
    requires !Blank(a.owner.text) && a.operation == a.owner && a.operation !in t.operations
    ensures var after := Admitted(t, a); OperationsKept(after.leases, after.operations, after.payloads)
  {
    hide Redact, Resources, Blank;
  }

  lemma ProjectingKeepsRecords(t: Tables, p: ProjectId, c: Config)
    requires Records(t) && p in t.projects && Project(t, p, c).Some?
    ensures Records(Project(t, p, c).value)
    ensures var after := Project(t, p, c).value;
      && after.aggregates == t.aggregates && after.versions == t.versions && after.markers == t.markers && after.secrets == t.secrets
      && after.leases == t.leases && after.operations == t.operations && after.payloads == t.payloads
      && after.projects == t.projects[p := t.projects[p].(domain := c.domain)]
  {
    hide Redact, PortEntries, ProjectPorts, SnapshotsKept, OperationsKept;
  }

  lemma MarkingGoodKeepsRecords(t: Tables, p: ProjectId, owner: OperationId, phase: string)
    requires Records(t) && p in t.projects && Revision(p, t.projects[p].revision) in t.aggregates && MarkedGood(t, p, owner, phase).Some?
    ensures Records(MarkedGood(t, p, owner, phase).value)
  {
    hide Project, SnapshotsKept, OperationsKept, WithoutReservationsAt, SetPhase;
    ProjectingKeepsRecords(t, p, t.aggregates[Revision(p, t.projects[p].revision)]);
    PhaseKeepsOperations(t, t.leases, owner, phase);
  }

  lemma UndoingKeepsRecords(t: Tables, p: ProjectId, owner: OperationId)
    requires Records(t) && p in t.projects && Revision(p, t.projects[p].lastGood) in t.aggregates
    requires Revision(p, t.projects[p].revision) in t.markers && Undone(t, p, owner).Some?
    ensures Records(Undone(t, p, owner).value)
  {
    hide Project, SnapshotsKept, OperationsKept, WithoutReservationsAt, SetPhase;
    ProjectingKeepsRecords(t, p, t.aggregates[Revision(p, t.projects[p].lastGood)]);
    SnapshotRemoved(t, Revision(p, t.projects[p].revision));
    PhaseKeepsOperations(t, t.leases - {p}, owner, STATE_RESTORED);
  }

  lemma CreatingKeepsRecords(t: Tables, p: ProjectId, c: Config, secrets: map<string, Envelope>)
    requires Records(t)
    ensures Records(Apply(t, Creating(p, c, secrets)))
  {
    hide Redact, OperationsKept, SnapshotsKept;
    SnapshotAdded(t, Revision(p, 1), Redact(c).(revision := 1), secrets);
  }

  lemma PersistingKeepsRecords(t: Tables, p: ProjectId, c: Config)
    requires Records(t)
    ensures Records(Apply(t, Persisting(p, c)))
  {
    if PersistAllocated(t, p, c).Committed? {
      hide Project, Redact;
      var at := Revision(p, t.projects[p].revision);
      var staged := t.(aggregates := t.aggregates[at := Redact(c).(revision := at.number)]);
      ProjectingKeepsRecords(staged, p, c.(revision := at.number));
    }
  }

  lemma UpkeepKeepsRecords(t: Tables, s: Step)
    requires Records(t) && (s.Renewing? || s.Releasing? || s.Acquiring? || s.Publishing? || s.Reserving? || s.SettingStatus? || s.SettingPhase?)
    ensures Records(Apply(t, s))
  {
    hide SnapshotsKept, DomainsDiffer, ClaimPorts, Blank;
  }

  lemma AdmitsNamedOwner(t: Tables, a: Admission, row: Option<OperationId>)
    requires AdmitError(t, a, row).None?
    ensures !Blank(a.owner.text)
  {
  }

  lemma StepKeepsRecords(t: Tables, s: Step)
    requires Records(t)
    ensures Records(Apply(t, s))
  {
    hide Records;
    match s
    case Admitting(a, row) =>
      hide Admitted, AdmitError;
      if Admit(t, a, row).Committed? {
        AdmitFacts(t, a, row);
        AdmitsNamedOwner(t, a, row);
        AdmittingKeepsRecords(t, a);
      }
    case MarkingGood(p, revision, owner, fence, phase) =>
      hide MarkedGood;
      if MarkGood(t, p, revision, owner, fence, phase).Committed? {
        MarkingGoodKeepsRecords(t, p, owner, phase);
      }
    case Restoring(p, revision, owner, fence) =>
      hide Undone;
      if Restore(t, p, revision, owner, fence).Committed? && t.projects[p].revision == revision {
        UndoingKeepsRecords(t, p, owner);
      }
    case Creating(p, c, secrets) => hide Apply; CreatingKeepsRecords(t, p, c, secrets);
    case Persisting(p, c) => hide Apply; PersistingKeepsRecords(t, p, c);
    case _ => hide Apply; UpkeepKeepsRecords(t, s);
  }

  /** Every run keeps the records, from the empty database on. */
  lemma {:induction false} RunKeepsRecords(t: Tables, steps: seq<Step>)
    requires Records(t)
    ensures Records(Run(t, steps))
    decreases |steps|
  {
    if steps != [] {
      hide Records, Apply;
      StepKeepsRecords(t, steps[0]);
      RunKeepsRecords(Apply(t, steps[0]), steps[1..]);
    }
  }

  lemma EmptyHasRecords()
    ensures Records(EMPTY)
  {
  }

  // ---------------------------------------------------------------------------------------------
  // Moving ports
  // ---------------------------------------------------------------------------------------------

  /**
   * The kinds are written one after the other, each freeing its own port first: a port is free for a
   * kind unless another project has it, an earlier kind has just taken it, or a later kind of the
   * same project has not given it up yet.
   */
  ghost predicate FreeInTurn(before: map<nat, Allocation>, p: ProjectId, entries: seq<PortEntry>, i: nat)
    requires i < |entries|
  {
    entries[i].Claims() ==>
      && (forall j | 0 <= j < i && entries[j].Claims() :: entries[j].port != entries[i].port)
      && (entries[i].port in before ==>
            && before[entries[i].port].project == p
            && exists j :: 0 <= j <= i && entries[j].kind == before[entries[i].port].kind)
  }

  /** Ports of kinds that are not written stay. */
  lemma {:induction false} UnwrittenKindsStay(before: map<nat, Allocation>, p: ProjectId, entries: seq<PortEntry>)
    requires ProjectPorts(before, p, entries).Some?
    ensures forall port | port in before && (before[port].project == p ==> !Mentions(entries, before[port].kind)) ::
      port in ProjectPorts(before, p, entries).value && ProjectPorts(before, p, entries).value[port] == before[port]
  {
    if entries != [] {
      var front, last := entries[..|entries| - 1], entries[|entries| - 1];
      UnwrittenKindsStay(before, p, front);
      assert entries == front + [last];
      assert last in entries && forall e | e in front :: e in entries;
    }
  }

  lemma LastTurn(before: map<nat, Allocation>, p: ProjectId, entries: seq<PortEntry>, middle: map<nat, Allocation>)
    requires entries != [] && ProjectPorts(before, p, entries[..|entries| - 1]) == Some(middle)
    ensures ProjectPorts(before, p, entries).Some? <==>
      var last := entries[|entries| - 1]; !last.Claims() || last.port !in middle || middle[last.port] == Allocation(p, last.kind)
  {
  }

  /** The turn of a kind whose port somebody has by then. */
  lemma TurnMeetsRow(before: map<nat, Allocation>, p: ProjectId, entries: seq<PortEntry>, middle: map<nat, Allocation>)
    requires entries != [] && DistinctKinds(entries) && Projected(before, p, entries[..|entries| - 1], middle)
    requires var last := entries[|entries| - 1]; last.Claims() && last.port in middle && middle[last.port] != Allocation(p, last.kind)
    ensures !FreeInTurn(before, p, entries, |entries| - 1)
  {
    var n := |entries| - 1;
    var front, port := entries[..n], entries[n].port;
    assert forall j | 0 <= j < n :: front[j] == entries[j] && front[j] in front;
    if middle[port].project == p && Claimed(front, port, middle[port].kind) {
      var e :| e in front && e.Claims() && e.port == port && e.kind == middle[port].kind;
      var j :| 0 <= j < n && front[j] == e;
      assert entries[j].Claims() && entries[j].port == port;
    }
  }

  /** The turn of a kind whose port nobody has, or the kind itself. */
  lemma TurnIsFree(before: map<nat, Allocation>, p: ProjectId, entries: seq<PortEntry>, middle: map<nat, Allocation>)
    requires entries != [] && DistinctKinds(entries) && Projected(before, p, entries[..|entries| - 1], middle)
    requires ProjectPorts(before, p, entries[..|entries| - 1]) == Some(middle)
    requires var last := entries[|entries| - 1]; last.port !in middle || middle[last.port] == Allocation(p, last.kind)
    ensures FreeInTurn(before, p, entries, |entries| - 1)
  {
    var n := |entries| - 1;
    var front, last := entries[..n], entries[n];
    forall j | 0 <= j < n && entries[j].Claims() ensures entries[j].port != last.port {
      assert front[j] == entries[j] && front[j] in front;
    }
    UnwrittenKindsStay(before, p, front);
    hide ProjectPorts;
    if last.port in before && before[last.port].kind != last.kind {
      assert before[last.port].project == p && Mentions(front, before[last.port].kind);
      var e :| e in front && e.kind == before[last.port].kind;
      var j :| 0 <= j < n && front[j] == e;
      assert entries[j].kind == before[last.port].kind;
    }
  }

  ghost predicate AllFreeInTurn(before: map<nat, Allocation>, p: ProjectId, entries: seq<PortEntry>) {
    forall i | 0 <= i < |entries| :: FreeInTurn(before, p, entries, i)
  }

  /** A projection is refused exactly when some port is not free in its turn. */
  lemma {:induction false} ProjectPortsIff(before: map<nat, Allocation>, p: ProjectId, entries: seq<PortEntry>)
    requires DistinctKinds(entries)
    ensures ProjectPorts(before, p, entries).Some? <==> AllFreeInTurn(before, p, entries)
  {
    if entries != [] {
      var n := |entries| - 1;
      var front := entries[..n];
      ProjectPortsIff(before, p, front);
      AllTurnsAndLast(before, p, entries);
      ProjectPortsEffect(before, p, front);
      hide Projected, FreeInTurn, AllFreeInTurn;
      if ProjectPorts(before, p, front).Some? {
        TurnIff(before, p, entries, ProjectPorts(before, p, front).value);
      }
    }
  }

  lemma TurnIff(before: map<nat, Allocation>, p: ProjectId, entries: seq<PortEntry>, middle: map<nat, Allocation>)
    requires entries != [] && DistinctKinds(entries) && Projected(before, p, entries[..|entries| - 1], middle)
    requires ProjectPorts(before, p, entries[..|entries| - 1]) == Some(middle)
    ensures ProjectPorts(before, p, entries).Some? <==> FreeInTurn(before, p, entries, |entries| - 1)
  {
    LastTurn(before, p, entries, middle);
    hide Projected, FreeInTurn, ProjectPorts;
    var last := entries[|entries| - 1];
    if !last.Claims() {
      IdleTurn(before, p, entries, |entries| - 1);
    } else if last.port in middle && middle[last.port] != Allocation(p, last.kind) {
      TurnMeetsRow(before, p, entries, middle);
    } else {
      TurnIsFree(before, p, entries, middle);
    }
  }

  lemma AllTurnsAndLast(before: map<nat, Allocation>, p: ProjectId, entries: seq<PortEntry>)
    requires entries != []
    ensures AllFreeInTurn(before, p, entries) <==>
      AllFreeInTurn(before, p, entries[..|entries| - 1]) && FreeInTurn(before, p, entries, |entries| - 1)
  {
    var n := |entries| - 1;
    forall i | 0 <= i < n ensures FreeInTurn(before, p, entries[..n], i) == FreeInTurn(before, p, entries, i) {
      SameTurn(before, p, entries, i);
    }
    hide FreeInTurn;
  }

  lemma IdleTurn(before: map<nat, Allocation>, p: ProjectId, entries: seq<PortEntry>, i: nat)
    requires i < |entries| && !entries[i].Claims()
    ensures FreeInTurn(before, p, entries, i)
  {
  }

  lemma SameTurn(before: map<nat, Allocation>, p: ProjectId, entries: seq<PortEntry>, i: nat)
    requires i < |entries| - 1
    ensures FreeInTurn(before, p, entries[..|entries| - 1], i) == FreeInTurn(before, p, entries, i)
  {
    var front := entries[..|entries| - 1];
    assert forall j | 0 <= j <= i :: front[j] == entries[j];
  }

  /** Publishing a configuration in which two kinds change ports is refused: the first meets the second's row. */
  lemma SwappedPortsAreRefused(before: map<nat, Allocation>, p: ProjectId, c: Config, first: nat, second: nat)
    requires first in before && before[first] == Allocation(p, API) && second in before && before[second] == Allocation(p, STUDIO)
    requires c.ports.api == second != 0 && c.ports.studio == first != 0 && c.services.studio
    ensures ProjectPorts(before, p, PortEntries(c)).None?
  {
    var entries := PortEntries(c);
    ProjectPortsIff(before, p, entries);
    assert entries[0].Claims() && entries[0].port == second;
    assert !FreeInTurn(before, p, entries, 0);
  }

  // ---------------------------------------------------------------------------------------------
  // Who commits
  // ---------------------------------------------------------------------------------------------

  ghost predicate DomainFree(t: Tables, p: ProjectId, c: Config) {
    forall q | q in t.projects && q != p :: t.projects[q].domain != c.domain
  }

  lemma ProjectIff(t: Tables, p: ProjectId, c: Config)
    requires p in t.projects
    ensures Project(t, p, c).Some? <==> DomainFree(t, p, c) && AllFreeInTurn(t.allocations, p, PortEntries(c))
  {
    hide AllFreeInTurn, PortEntries, Redact;
    ProjectPortsIff(t.allocations, p, PortEntries(c));
  }

  /** Admission commits exactly for a new operation on a known project whose lease is free and whose resources nobody else holds. */
  lemma AdmitCommitsIff(t: Tables, a: Admission, row: Option<OperationId>)
    requires Records(t)
    ensures Admit(t, a, row).Committed? <==>
      var p, c := a.project, a.configuration;
      && !Blank(a.owner.text) && a.operation == a.owner && a.operation !in t.operations
      && p in t.projects && (p in t.leases ==> t.leases[p].expires <= a.now)
      && (c.domain != "" ==> DomainFree(t, p, c) && (Domain(c.domain) in t.reservations ==> t.reservations[Domain(c.domain)].project == p))
      && (forall e | e in PortEntries(c) && e.Claims() ::
            && (e.port in t.allocations ==> t.allocations[e.port].project == p)
            && (Port(e.port) in t.reservations ==> t.reservations[Port(e.port)].project == p))
      // No active operation works on the revision it would replace.
      && !(Revision(p, t.projects[p].revision + 1) in t.aggregates && row.Some? && row.value in t.operations && t.operations[row.value].status.Active())
  {
    hide PortEntries, Resources, HeldByOther, Blank, Admitted, Records, DomainFree;
    UnheldIff(t, a.project, a.configuration);
    RecordsOfAdmission(t, a);
  }

  /**
   * Which row the query returns does not matter when the operations bound to the next revision agree:
   * none active, and it never blocks; all active, and it does.
   */
  lemma CandidateDecides(t: Tables, p: ProjectId, row: Option<OperationId>)
    requires Records(t) && p in t.projects && IsCandidateRow(t, Revision(p, t.projects[p].revision + 1), row)
    ensures
      var bound := set o | o in t.payloads && t.payloads[o].project == p && t.payloads[o].revision == t.projects[p].revision + 1;
      var blocks := row.Some? && row.value in t.operations && t.operations[row.value].status.Active();
      && ((forall o | o in bound :: o in t.operations && !t.operations[o].status.Active()) ==> !blocks)
      && (bound != {} && (forall o | o in bound :: o in t.operations && t.operations[o].status.Active()) ==> blocks)
  {
    hide SnapshotsKept, DomainsDiffer, Blank;
    var next := Revision(p, t.projects[p].revision + 1);
    if row.None? {
      forall o | o in t.payloads ensures !(t.payloads[o].project == p && t.payloads[o].revision == next.number) {
        assert !BoundTo(t, next, o);
      }
    } else {
      assert BoundTo(t, next, row.value);
    }
  }

  lemma RecordsOfAdmission(t: Tables, a: Admission)
    requires Records(t)
    ensures a.operation.text == "" ==> Blank(a.operation.text)
    ensures a.operation in t.payloads ==> a.operation in t.operations
    ensures a.project in t.projects ==>
      var next := Revision(a.project, t.projects[a.project].revision + 1);
      next !in t.aggregates ==> next !in t.markers && t.VersionsOf(next) == map[]
  {
    if a.project in t.projects {
      NoStraySnapshot(t, Revision(a.project, t.projects[a.project].revision + 1));
    }
  }

  lemma NoStraySnapshot(t: Tables, r: Revision)
    requires SnapshotsKept(t.aggregates, t.versions, t.markers)
    ensures r !in t.aggregates ==> r !in t.markers && t.VersionsOf(r) == map[]
  {
  }

  lemma UnheldIff(t: Tables, p: ProjectId, c: Config)
    ensures (exists r :: r in Resources(c) && HeldByOther(t, p, r)) <==>
      !(&& (c.domain != "" ==> DomainFree(t, p, c) && (Domain(c.domain) in t.reservations ==> t.reservations[Domain(c.domain)].project == p))
        && (forall e | e in PortEntries(c) && e.Claims() ::
              && (e.port in t.allocations ==> t.allocations[e.port].project == p)
              && (Port(e.port) in t.reservations ==> t.reservations[Port(e.port)].project == p)))
  {
    hide PortEntries;
    if r :| r in Resources(c) && HeldByOther(t, p, r) {
      if r.Port? {
        var e :| e in PortEntries(c) && e.Claims() && e.port == r.port;
      }
    } else {
      if c.domain != "" {
        assert Domain(c.domain) in Resources(c) && !HeldByOther(t, p, Domain(c.domain));
      }
      forall e | e in PortEntries(c) && e.Claims()
        ensures e.port in t.allocations ==> t.allocations[e.port].project == p
        ensures Port(e.port) in t.reservations ==> t.reservations[Port(e.port)].project == p
      {
        assert Port(e.port) in Resources(c) && !HeldByOther(t, p, Port(e.port));
      }
    }
  }

  /**
   * Publication commits exactly for the holder of the lease, whose operation runs the current
   * revision, when its domain is free and each port is free in its turn.
   */
  lemma MarkGoodCommitsIff(t: Tables, p: ProjectId, revision: int, owner: OperationId, fence: int, phase: string)
    requires Inv(t) && Records(t) && p in t.projects
    ensures MarkGood(t, p, revision, owner, fence, phase).Committed? <==>
      && revision == t.projects[p].revision && !Blank(phase)
      && Owns(t, p, owner, fence) && owner in t.payloads && t.payloads[owner].revision == revision
      && Revision(p, revision) in t.aggregates
      && DomainFree(t, p, t.aggregates[Revision(p, revision)])
      && AllFreeInTurn(t.allocations, p, PortEntries(t.aggregates[Revision(p, revision)]))
  {
    hide PendingKept, Stored, PortsExclusive, KindsUnique, Blank, AllFreeInTurn, PortEntries, Project, WithoutReservationsAt, SetPhase, DomainFree;
    assert Ledger(t.projects[p], p, t.aggregates, t.canonical);
    ProjectIff(t, p, t.aggregates[Revision(p, t.projects[p].revision)]);
  }

  /** An installed project's last good configuration can always be put back. */
  lemma LastGoodIsFree(t: Tables, p: ProjectId)
    requires DomainsDiffer(t.projects) && Installed(t, p)
    ensures var c := t.aggregates[Revision(p, t.projects[p].lastGood)];
      DomainFree(t, p, c) && AllFreeInTurn(t.allocations, p, PortEntries(c))
  {
    var c := t.aggregates[Revision(p, t.projects[p].lastGood)];
    var entries := PortEntries(c);
    hide PortEntries;
    forall i | 0 <= i < |entries| ensures FreeInTurn(t.allocations, p, entries, i) {
      assert entries[i] in entries;
      forall j | 0 <= j < i && entries[i].Claims() && entries[j].Claims() ensures entries[j].port != entries[i].port {
        assert entries[j] in entries;
      }
    }
  }

  /** Undoing commits exactly for the holder of the lease whose operation runs the current revision: nothing else can refuse it. */
  lemma UndoCommitsIff(t: Tables, p: ProjectId, owner: OperationId, fence: int)
    requires Inv(t) && Records(t) && Installed(t, p) && t.projects[p].lastGood < t.projects[p].revision
    ensures Restore(t, p, t.projects[p].revision, owner, fence).Committed? <==>
      Owns(t, p, owner, fence) && owner in t.payloads && t.payloads[owner].revision == t.projects[p].revision
  {
    hide Inv, Records, AllFreeInTurn, PortEntries, Project, WithoutReservationsAt, SetPhase, DomainFree, OwnsPorts, RestoreError;
    UndoPasses(t, p, owner, fence);
    DomainsOfRecords(t);
    LastGoodIsFree(t, p);
    ProjectIff(t, p, t.aggregates[Revision(p, t.projects[p].lastGood)]);
  }

  lemma DomainsOfRecords(t: Tables)
    requires Records(t)
    ensures DomainsDiffer(t.projects)
  {
  }

  /** The checks of an undo pass exactly for the holder. */
  lemma UndoPasses(t: Tables, p: ProjectId, owner: OperationId, fence: int)
    requires Inv(t) && Records(t) && p in t.projects
    ensures Revision(p, t.projects[p].lastGood) in t.aggregates && Revision(p, t.projects[p].revision) in t.markers
    ensures RestoreError(t, p, t.projects[p].revision, owner, fence) == None <==>
      Owns(t, p, owner, fence) && owner in t.payloads && t.payloads[owner].revision == t.projects[p].revision
  {
    hide PendingKept, Stored, PortsExclusive, KindsUnique, Blank, DomainsDiffer;
    assert Ledger(t.projects[p], p, t.aggregates, t.canonical);
  }

  /** An undo that is repeated, with whatever fence, commits and changes nothing. */
  lemma UndoTwice(t: Tables, p: ProjectId, owner: OperationId, fence: int, again: int)
    requires Records(t) && p in t.projects && t.projects[p].lastGood != t.projects[p].revision && again > 0
    requires Restore(t, p, t.projects[p].revision, owner, fence).Committed?
    ensures var once := Restore(t, p, t.projects[p].revision, owner, fence).tables;
      Restore(once, p, t.projects[p].revision, owner, again) == Committed(once)
  {
    hide Project, WithoutReservationsAt, Blank, SnapshotsKept, DomainsDiffer;
    UndoneRow(t, p, owner);
  }

  lemma UndoneRow(t: Tables, p: ProjectId, owner: OperationId)
    requires p in t.projects && Revision(p, t.projects[p].lastGood) in t.aggregates
    requires Revision(p, t.projects[p].revision) in t.markers && Undone(t, p, owner).Some?
    ensures var after := Undone(t, p, owner).value;
      && p in after.projects && after.projects[p].revision == t.projects[p].lastGood == after.projects[p].lastGood
      && after.operations == SetPhase(t.operations, owner, STATE_RESTORED)
  {
    hide Redact, PortEntries, ProjectPorts, SetPhase, WithoutReservationsAt;
  }
}
