/**
 * What every run of the configuration transactions keeps, from the empty database on: the revision
 * ledger, the exclusive ownership of ports and domains, and the binding of leases to fences.
 */
module ConfigurationInvariants {
  import opened Common
  import opened Configuration
  import opened ConfigurationTables

  // ---------------------------------------------------------------------------------------------
  // Invariants
  // ---------------------------------------------------------------------------------------------

  /** The canonical row is the snapshot at the current revision, and the last good one is still there. */
  ghost predicate Ledger(row: ProjectRow, p: ProjectId, aggregates: map<Revision, Config>, canonical: map<ProjectId, Config>) {
    && 1 <= row.lastGood <= row.revision
    && Revision(p, row.lastGood) in aggregates
    && Revision(p, row.revision) in aggregates
    && p in canonical
    && canonical[p] == aggregates[Revision(p, row.revision)]
  }

  ghost predicate Stored(aggregates: map<Revision, Config>) {
    forall r | r in aggregates :: Redacted(aggregates[r]) && aggregates[r].revision == r.number
  }

  ghost predicate ReservedFor(reservations: map<Resource, Reservation>, p: ProjectId, c: Config) {
    forall r | r in Resources(c) :: r in reservations && reservations[r].project == p
  }

  /** A candidate that is not yet good has all its resources reserved for its project. */
  ghost predicate Pending(row: ProjectRow, p: ProjectId, aggregates: map<Revision, Config>, reservations: map<Resource, Reservation>) {
    row.lastGood < row.revision && Revision(p, row.revision) in aggregates ==>
      ReservedFor(reservations, p, aggregates[Revision(p, row.revision)])
  }

  /** No port is allocated to one project while another one has it reserved. */
  ghost predicate PortsExclusive(allocations: map<nat, Allocation>, reservations: map<Resource, Reservation>) {
    forall port | port in allocations && Port(port) in reservations ::
      reservations[Port(port)].project == allocations[port].project
  }

  /** `UNIQUE (project_id, kind)` of `port_allocations`. */
  ghost predicate KindsUnique(allocations: map<nat, Allocation>) {
    forall a, b | a in allocations && b in allocations && allocations[a] == allocations[b] :: a == b
  }

  /** Whoever holds the lease runs a payload that carries the lease's own fence. */
  ghost predicate FencesBound(leases: map<ProjectId, Lease>, payloads: map<OperationId, Payload>) {
    forall p | p in leases ::
      && leases[p].fence >= 1
      && leases[p].owner in payloads
      && payloads[leases[p].owner].project == p
      && payloads[leases[p].owner].fence == leases[p].fence
  }

  ghost predicate LedgerKept(t: Tables) {
    forall p | p in t.projects :: Ledger(t.projects[p], p, t.aggregates, t.canonical)
  }

  ghost predicate PendingKept(t: Tables) {
    forall p | p in t.projects :: Pending(t.projects[p], p, t.aggregates, t.reservations)
  }

  ghost predicate Inv(t: Tables) {
    && LedgerKept(t)
    && PendingKept(t)
    && Stored(t.aggregates)
    && PortsExclusive(t.allocations, t.reservations)
    && KindsUnique(t.allocations)
    && FencesBound(t.leases, t.payloads)
  }

  ghost predicate OwnsPorts(allocations: map<nat, Allocation>, p: ProjectId, entries: seq<PortEntry>) {
    forall e | e in entries && e.Claims() :: e.port in allocations && allocations[e.port] == Allocation(p, e.kind)
  }

  /** The last good configuration owns its domain and its ports: installation has been persisted. */
  ghost predicate Installed(t: Tables, p: ProjectId) {
    && p in t.projects
    && Revision(p, t.projects[p].lastGood) in t.aggregates
    && t.projects[p].domain == t.aggregates[Revision(p, t.projects[p].lastGood)].domain
    && OwnsPorts(t.allocations, p, PortEntries(t.aggregates[Revision(p, t.projects[p].lastGood)]))
  }

  // ---------------------------------------------------------------------------------------------
  // Port projection
  // ---------------------------------------------------------------------------------------------

  ghost predicate DistinctKinds(entries: seq<PortEntry>) {
    forall i, j | 0 <= i < j < |entries| :: entries[i].kind != entries[j].kind
  }

  ghost predicate Claimed(entries: seq<PortEntry>, port: nat, kind: PortKind) {
    exists e :: e in entries && e.Claims() && e.port == port && e.kind == kind
  }

  ghost predicate Mentions(entries: seq<PortEntry>, kind: PortKind) {
    exists e :: e in entries && e.kind == kind
  }

  /** Other projects keep their rows, and the project holds what the entries claim beside untouched kinds. */
  ghost predicate Projected(before: map<nat, Allocation>, p: ProjectId, entries: seq<PortEntry>, after: map<nat, Allocation>) {
    && OwnsPorts(after, p, entries)
    && (forall port | port in after && after[port].project != p :: port in before && before[port] == after[port])
    && (forall port | port in before && before[port].project != p :: port in after && before[port] == after[port])
    && (forall port | port in after && after[port].project == p ::
         || Claimed(entries, port, after[port].kind)
         || (port in before && before[port] == after[port] && !Mentions(entries, after[port].kind)))
  }

  lemma ProjectPortEffect(before: map<nat, Allocation>, p: ProjectId, entries: seq<PortEntry>, middle: map<nat, Allocation>, e: PortEntry)
    requires Projected(before, p, entries, middle) && !Mentions(entries, e.kind)
    ensures ProjectPort(middle, p, e).Some? ==> Projected(before, p, entries + [e], ProjectPort(middle, p, e).value)
  {
  }

  /** A projection that is not refused gives the project exactly the configured ports of the projected kinds. */
  lemma {:induction false} ProjectPortsEffect(before: map<nat, Allocation>, p: ProjectId, entries: seq<PortEntry>)
    requires DistinctKinds(entries)
    ensures ProjectPorts(before, p, entries).Some? ==> Projected(before, p, entries, ProjectPorts(before, p, entries).value)
  {
    if entries != [] {
      var n := |entries| - 1;
      ProjectPortsEffect(before, p, entries[..n]);
      assert entries == entries[..n] + [entries[n]];
      if ProjectPorts(before, p, entries[..n]).Some? {
        ProjectPortEffect(before, p, entries[..n], ProjectPorts(before, p, entries[..n]).value, entries[n]);
      }
    }
  }

  lemma ProjectionKeepsKindsUnique(before: map<nat, Allocation>, p: ProjectId, entries: seq<PortEntry>, after: map<nat, Allocation>)
    requires KindsUnique(before) && Projected(before, p, entries, after) && DistinctKinds(entries)
    ensures KindsUnique(after)
  {
  }

  ghost predicate FreeOfOthers(reservations: map<Resource, Reservation>, p: ProjectId, c: Config) {
    forall e | e in PortEntries(c) && e.Claims() :: Port(e.port) in reservations ==> reservations[Port(e.port)].project == p
  }

  /** Publishing a configuration whose ports nobody else has reserved keeps every port with one project. */
  lemma ProjectKeepsPorts(t: Tables, p: ProjectId, c: Config)
    requires p in t.projects && PortsExclusive(t.allocations, t.reservations) && KindsUnique(t.allocations)
    requires FreeOfOthers(t.reservations, p, c) && Project(t, p, c).Some?
    ensures PortsExclusive(Project(t, p, c).value.allocations, t.reservations)
    ensures KindsUnique(Project(t, p, c).value.allocations)
    ensures Projected(t.allocations, p, PortEntries(c), Project(t, p, c).value.allocations)
  {
    ProjectPortsEffect(t.allocations, p, PortEntries(c));
    ProjectionKeepsKindsUnique(t.allocations, p, PortEntries(c), Project(t, p, c).value.allocations);
  }

  /** A projection touches the project's canonical row, its domain and the allocations, and nothing else. */
  lemma ProjectShape(t: Tables, p: ProjectId, c: Config)
    requires p in t.projects && Redacted(c) && Project(t, p, c).Some?
    ensures Project(t, p, c).value ==
            t.(canonical := t.canonical[p := c],
               projects := t.projects[p := t.projects[p].(domain := c.domain)],
               allocations := Project(t, p, c).value.allocations)
  {
    RedactIsIdempotent(c);
    hide Redact, Redacted, PortEntries, ProjectPorts;
  }

  // ---------------------------------------------------------------------------------------------
  // Admission
  // ---------------------------------------------------------------------------------------------

  ghost predicate Unheld(t: Tables, p: ProjectId, c: Config) {
    forall r | r in Resources(c) :: !HeldByOther(t, p, r)
  }

  lemma AdmitFacts(t: Tables, a: Admission, row: Option<OperationId>)
    requires AdmitError(t, a, row).None?
    ensures a.project in t.projects && Unheld(t, a.project, a.configuration) && LeaseFree(t, a.project, a.now)
    ensures a.operation == a.owner && a.operation !in t.operations && a.operation !in t.payloads
  {
  }

  /** The pending reservations of a project after an admission are its configuration's, and no other project loses one. */
  lemma AdmittedReservations(t: Tables, a: Admission)
    requires a.project in t.projects && Unheld(t, a.project, a.configuration)
    ensures ReservedFor(Admitted(t, a).reservations, a.project, a.configuration)
    ensures var after := Admitted(t, a).reservations;
      && (forall r | r in after && after[r].project == a.project ::
           r in Resources(a.configuration) && after[r].revision == a.expectedRevision + 1)
      && (forall r | r in t.reservations && t.reservations[r].project != a.project :: r in after && after[r] == t.reservations[r])
      && (forall r | r in after && after[r].project != a.project :: r in t.reservations && after[r] == t.reservations[r])
  {
  }

  lemma AdmittedKeepsPorts(t: Tables, a: Admission)
    requires a.project in t.projects && Unheld(t, a.project, a.configuration) && PortsExclusive(t.allocations, t.reservations)
    ensures PortsExclusive(t.allocations, Admitted(t, a).reservations)
  {
  }

  lemma AdmittedShape(t: Tables, a: Admission)
    requires a.project in t.projects && a.expectedRevision == t.projects[a.project].revision
    ensures var after := Admitted(t, a);
      var next := t.projects[a.project].revision + 1;
      && after.projects == t.projects[a.project := t.projects[a.project].(revision := next)]
      && a.project in after.canonical
      && after.canonical == t.canonical[a.project := after.canonical[a.project]]
      && after.aggregates == t.aggregates[Revision(a.project, next) := after.canonical[a.project]]
      && Redacted(after.canonical[a.project])
      && after.canonical[a.project].revision == next
  {
  }

  lemma AdmittedKeepsLedger(t: Tables, a: Admission)
    requires a.project in t.projects && LedgerKept(t) && Stored(t.aggregates)
    requires a.expectedRevision == t.projects[a.project].revision
    ensures LedgerKept(Admitted(t, a)) && Stored(Admitted(t, a).aggregates)
  {
    hide Admitted, Redacted;
    AdmittedShape(t, a);
    var after := Admitted(t, a);
    forall p | p in after.projects
      ensures Ledger(after.projects[p], p, after.aggregates, after.canonical)
    {
      assert Ledger(t.projects[p], p, t.aggregates, t.canonical);
    }
  }

  lemma AdmittedKeepsPending(t: Tables, a: Admission)
    requires a.project in t.projects && Unheld(t, a.project, a.configuration) && LedgerKept(t) && PendingKept(t)
    requires a.expectedRevision == t.projects[a.project].revision
    ensures PendingKept(Admitted(t, a))
  {
  }

  lemma AdmittedKeepsFences(t: Tables, a: Admission)
    requires a.project in t.projects && FencesBound(t.leases, t.payloads)
    requires a.operation == a.owner && a.operation !in t.payloads
    ensures FencesBound(Admitted(t, a).leases, Admitted(t, a).payloads)
  {
  }

  /** An admission that names the stored revision keeps the whole invariant. */
  lemma AdmittedKeepsInv(t: Tables, a: Admission, row: Option<OperationId>)
    requires Inv(t) && AdmitError(t, a, row).None? && a.expectedRevision == t.projects[a.project].revision
    ensures Inv(Admitted(t, a))
  {
    AdmitFacts(t, a, row);
    hide AdmitError, LedgerKept, PendingKept, Unheld, Stored, PortsExclusive, KindsUnique, FencesBound;
    AdmittedKeepsLedger(t, a);
    AdmittedKeepsPending(t, a);
    AdmittedKeepsPorts(t, a);
    AdmittedKeepsFences(t, a);
    assert Admitted(t, a).allocations == t.allocations by { hide Redact, Resources, ApplyMutations; }
  }

  /** Exactly the admissions that name the stored revision keep the project's ledger. */
  lemma AdmittedKeepsLedgerIff(t: Tables, a: Admission)
    requires a.project in t.projects && LedgerKept(t) && Stored(t.aggregates)
    ensures var after := Admitted(t, a);
      && a.project in after.projects
      && (Ledger(after.projects[a.project], a.project, after.aggregates, after.canonical)
          <==> a.expectedRevision == t.projects[a.project].revision)
  {
    hide Redact, Redacted, Resources, ApplyMutations;
    assert t.aggregates[Revision(a.project, t.projects[a.project].revision)].revision == t.projects[a.project].revision;
  }

  // ---------------------------------------------------------------------------------------------
  // Publication
  // ---------------------------------------------------------------------------------------------

  /** The last good configuration of an installed project, and its pending one, meet no foreign reservation. */
  lemma OwnConfigurationsAreFree(t: Tables, p: ProjectId)
    requires Inv(t) && Installed(t, p)
    ensures FreeOfOthers(t.reservations, p, t.aggregates[Revision(p, t.projects[p].lastGood)])
    ensures Revision(p, t.projects[p].revision) in t.aggregates
    ensures FreeOfOthers(t.reservations, p, t.aggregates[Revision(p, t.projects[p].revision)])
  {
    hide Redacted;
    assert Pending(t.projects[p], p, t.aggregates, t.reservations);
    var pending := t.aggregates[Revision(p, t.projects[p].revision)];
    if t.projects[p].lastGood < t.projects[p].revision {
      forall e | e in PortEntries(pending) && e.Claims()
        ensures Port(e.port) in t.reservations && t.reservations[Port(e.port)].project == p
      {
        assert Port(e.port) in Resources(pending);
      }
    }
  }

  lemma MarkedGoodShape(t: Tables, p: ProjectId, owner: OperationId, phase: string)
    requires p in t.projects && Revision(p, t.projects[p].revision) in t.aggregates && MarkedGood(t, p, owner, phase).Some?
    requires PortsExclusive(t.allocations, t.reservations) && KindsUnique(t.allocations) && Stored(t.aggregates)
    requires FreeOfOthers(t.reservations, p, t.aggregates[Revision(p, t.projects[p].revision)])
    ensures var after := MarkedGood(t, p, owner, phase).value;
      var c := t.aggregates[Revision(p, t.projects[p].revision)];
      && after.projects == t.projects[p := ProjectRow(t.projects[p].revision, t.projects[p].revision, c.domain)]
      && after.aggregates == t.aggregates && after.canonical == t.canonical[p := c]
      && after.reservations == WithoutReservationsAt(t, Revision(p, t.projects[p].revision))
      && after.leases == t.leases && after.payloads == t.payloads
      && Projected(t.allocations, p, PortEntries(c), after.allocations)
      && PortsExclusive(after.allocations, t.reservations) && KindsUnique(after.allocations)
  {
    hide Redact, Redacted, Resources, PortEntries, ProjectPorts, FreeOfOthers, Projected, PortsExclusive, KindsUnique, Project;
    ProjectKeepsPorts(t, p, t.aggregates[Revision(p, t.projects[p].revision)]);
    ProjectShape(t, p, t.aggregates[Revision(p, t.projects[p].revision)]);
  }

  /** A confirmed publication keeps the invariant and leaves the project installed at the new revision. */
  lemma MarkedGoodKeepsInv(t: Tables, p: ProjectId, owner: OperationId, phase: string)
    requires Inv(t) && Installed(t, p) && MarkedGood(t, p, owner, phase).Some?
    ensures var after := MarkedGood(t, p, owner, phase).value;
      Inv(after) && Installed(after, p) && after.projects[p].lastGood == t.projects[p].revision == after.projects[p].revision
  {
    hide MarkedGood, Redacted, Resources, PortEntries, KindsUnique, ReservedFor, Pending;
    var after := MarkedGood(t, p, owner, phase).value;
    OwnConfigurationsAreFree(t, p);
    MarkedGoodShape(t, p, owner, phase);
    PendingSurvives(t, p, after);
  }

  /** Dropping one revision's reservations leaves every other project's pending candidate reserved. */
  lemma PendingSurvives(t: Tables, p: ProjectId, after: Tables)
    requires PendingKept(t) && p in t.projects && p in after.projects
    requires after.projects == t.projects[p := after.projects[p]] && after.projects[p].revision == after.projects[p].lastGood
    requires forall r | r in t.aggregates && r.project != p :: r in after.aggregates && after.aggregates[r] == t.aggregates[r]
    requires after.reservations == WithoutReservationsAt(t, Revision(p, t.projects[p].revision))
    requires LedgerKept(t)
    ensures PendingKept(after)
  {
  }

  lemma UndoneShape(t: Tables, p: ProjectId, owner: OperationId)
    requires p in t.projects && Revision(p, t.projects[p].lastGood) in t.aggregates
    requires Revision(p, t.projects[p].revision) in t.markers && Undone(t, p, owner).Some?
    requires PortsExclusive(t.allocations, t.reservations) && KindsUnique(t.allocations) && Stored(t.aggregates)
    requires FreeOfOthers(t.reservations, p, t.aggregates[Revision(p, t.projects[p].lastGood)])
    ensures var after := Undone(t, p, owner).value;
      var at := Revision(p, t.projects[p].revision);
      var c := t.aggregates[Revision(p, t.projects[p].lastGood)];
      && after.projects == t.projects[p := ProjectRow(t.projects[p].lastGood, t.projects[p].lastGood, c.domain)]
      && after.aggregates == t.aggregates - {at} && after.canonical == t.canonical[p := c]
      && after.reservations == WithoutReservationsAt(t, at)
      && after.leases == t.leases - {p} && after.payloads == t.payloads
      && after.secrets == t.secrets[p := if t.markers[at] then t.VersionsOf(at) else map[]]
      && Projected(t.allocations, p, PortEntries(c), after.allocations)
      && PortsExclusive(after.allocations, t.reservations) && KindsUnique(after.allocations)
  {
    hide Redact, Redacted, Resources, PortEntries, ProjectPorts, FreeOfOthers, Projected, PortsExclusive, KindsUnique, Project;
    ProjectKeepsPorts(t, p, t.aggregates[Revision(p, t.projects[p].lastGood)]);
    ProjectShape(t, p, t.aggregates[Revision(p, t.projects[p].lastGood)]);
  }

  /** Undoing a revision that was never good keeps the invariant and returns to the last good one. */
  lemma UndoneKeepsInv(t: Tables, p: ProjectId, owner: OperationId)
    requires Inv(t) && Installed(t, p) && t.projects[p].lastGood < t.projects[p].revision
    requires Revision(p, t.projects[p].revision) in t.markers && Undone(t, p, owner).Some?
    ensures var after := Undone(t, p, owner).value;
      Inv(after) && Installed(after, p) && after.projects[p].revision == t.projects[p].lastGood
  {
    hide Undone, Redacted, Resources, PortEntries, KindsUnique, ReservedFor, Pending, FreeOfOthers, Ledger, Stored;
    var after := Undone(t, p, owner).value;
    OwnConfigurationsAreFree(t, p);
    UndoneShape(t, p, owner);
    LedgerSurvives(t, p, after);
    hide LedgerKept;
    PendingSurvives(t, p, after);
  }

  /** Dropping a revision above the last good one leaves every project's ledger in order. */
  lemma LedgerSurvives(t: Tables, p: ProjectId, after: Tables)
    requires LedgerKept(t) && Stored(t.aggregates) && p in t.projects && t.projects[p].lastGood < t.projects[p].revision
    requires Revision(p, t.projects[p].lastGood) in t.aggregates
    requires var c := t.aggregates[Revision(p, t.projects[p].lastGood)];
      && after.projects == t.projects[p := ProjectRow(t.projects[p].lastGood, t.projects[p].lastGood, c.domain)]
      && after.aggregates == t.aggregates - {Revision(p, t.projects[p].revision)}
      && after.canonical == t.canonical[p := c]
    ensures LedgerKept(after) && Stored(after.aggregates)
  {
    hide Redacted;
  }

  /** Undoing keeps the ledger exactly when the undone revision is not already the last good one. */
  lemma UndoneKeepsLedgerIff(t: Tables, p: ProjectId, owner: OperationId)
    requires Inv(t) && Installed(t, p)
    requires Revision(p, t.projects[p].revision) in t.markers && Undone(t, p, owner).Some?
    ensures var after := Undone(t, p, owner).value;
      && p in after.projects
      && (Ledger(after.projects[p], p, after.aggregates, after.canonical) <==> t.projects[p].lastGood < t.projects[p].revision)
  {
    hide Undone, Redacted, Resources, PortEntries, KindsUnique, PendingKept;
    OwnConfigurationsAreFree(t, p);
    UndoneShape(t, p, owner);
  }
}
