/**
 * The Manager tables that configuration operations touch, and every transaction over them as one
 * atomic step from tables to tables. An aborted transaction leaves the tables as they were.
 */
module ConfigurationTables {
  import opened Common
  import opened GoStrings
  import opened Configuration

  datatype ProjectId = ProjectId(text: string)
  datatype OperationId = OperationId(text: string)
  datatype Envelope = Envelope(version: int, nonce: string, ciphertext: string)

  datatype Status = Queued | Running | RollingBack | Succeeded | Failed | RolledBack {
    predicate Active() {
      Queued? || Running? || RollingBack?
    }
  }

  datatype ProjectRow = ProjectRow(revision: int, lastGood: int, domain: string)
  datatype Revision = Revision(project: ProjectId, number: int)
  datatype Reservation = Reservation(project: ProjectId, operation: OperationId, revision: int)
  datatype Allocation = Allocation(project: ProjectId, kind: PortKind)
  datatype Lease = Lease(owner: OperationId, fence: int, expires: int)
  datatype OperationRow = OperationRow(project: ProjectId, status: Status, phase: string)
  datatype Payload = Payload(project: ProjectId, revision: int, config: Config, fence: int)

  datatype Tables = Tables(
    projects: map<ProjectId, ProjectRow>,
    aggregates: map<Revision, Config>,
    canonical: map<ProjectId, Config>,
    secrets: map<ProjectId, map<string, Envelope>>,
    versions: map<Revision, map<string, Envelope>>,
    markers: map<Revision, bool>,
    reservations: map<Resource, Reservation>,
    allocations: map<nat, Allocation>,
    leases: map<ProjectId, Lease>,
    operations: map<OperationId, OperationRow>,
    payloads: map<OperationId, Payload>)
  {
    /** The rows of `project_secrets` of one project. */
    function SecretsOf(p: ProjectId): map<string, Envelope> {
      if p in secrets then secrets[p] else map[]
    }

    /** The rows of `project_secret_versions` of one revision. */
    function VersionsOf(r: Revision): map<string, Envelope> {
      if r in versions then versions[r] else map[]
    }
  }

  datatype Error =
    | OwnerRequired | OwnerMismatch | FenceNotPositive | PhaseRequired
    | Conflict | Busy | NotFound | Stale | UniqueViolation | SecretSnapshotUnavailable

  datatype Outcome = Committed(tables: Tables) | Aborted(error: Error)

  const STATE_RESTORED := "STATE_RESTORED"
  const DEFAULT_LEASE_SECONDS := 45 * 60

  predicate Blank(s: string) {
    forall i | 0 <= i < |s| :: Space(s[i])
  }

  /** A text is blank exactly when trimming leaves nothing of it. */
  lemma {:induction false} BlankIff(s: string)
    ensures Blank(s) <==> Trim(s) == ""
  {
    hide Space, Trim;
    TrimStrips(s);
    var at: nat :| Amid(Trim(s), s, at);
    if Trim(s) != "" {
      assert s[at..at + |Trim(s)|][0] == s[at];
    }
  }

  /** validateConfigurationOwner. */
  function OwnerError(owner: OperationId, fence: int): Option<Error> {
    if Blank(owner.text) then Some(OwnerRequired)
    else if fence <= 0 then Some(FenceNotPositive)
    else None
  }

  /** An owner that is not blank and a fence from 1 on pass, and each failure has its own error. */
  lemma OwnerErrorIff(owner: OperationId, fence: int)
    ensures OwnerError(owner, fence) == None <==> Trim(owner.text) != "" && fence >= 1
    ensures Trim(owner.text) == "" ==> OwnerError(owner, fence) == Some(OwnerRequired)
    ensures Trim(owner.text) != "" && fence < 1 ==> OwnerError(owner, fence) == Some(FenceNotPositive)
  {
    BlankIff(owner.text);
  }

  // ---------------------------------------------------------------------------------------------
  // Admission
  // ---------------------------------------------------------------------------------------------

  datatype SecretMutation = Put(kind: string, envelope: Envelope) | Delete(kind: string)

  datatype Admission = Admission(
    operation: OperationId, owner: OperationId, project: ProjectId, expectedRevision: int,
    configuration: Config, status: Status, mutations: seq<SecretMutation>, now: int, ttl: int)

  /** Another project holds the resource: it has it reserved, or published. */
  predicate HeldByOther(t: Tables, p: ProjectId, r: Resource) {
    || (r in t.reservations && t.reservations[r].project != p)
    || (r.Domain? && exists q :: q in t.projects && q != p && t.projects[q].domain == r.name)
    || (r.Port? && r.port in t.allocations && t.allocations[r.port].project != p)
  }

  predicate LeaseFree(t: Tables, p: ProjectId, now: int) {
    p in t.leases ==> t.leases[p].expires <= now
  }

  /** The fence a fresh lease gets: the first one, or one above the expired lease it replaces. */
  function NextFence(t: Tables, p: ProjectId): int {
    if p in t.leases then t.leases[p].fence + 1 else 1
  }

  /**
   * The `LIMIT 1` row of the existing-candidate query: any operation bound to the revision, and no
   * row only when there is none.
   */
  predicate IsCandidateRow(t: Tables, r: Revision, row: Option<OperationId>) {
    if row.Some? then BoundTo(t, r, row.value) else forall o | o in t.payloads :: !BoundTo(t, r, o)
  }

  predicate BoundTo(t: Tables, r: Revision, o: OperationId) {
    o in t.payloads && o in t.operations && t.payloads[o].project == r.project && t.payloads[o].revision == r.number
  }

  function ApplyMutations(secrets: map<string, Envelope>, mutations: seq<SecretMutation>): map<string, Envelope> {
    if mutations == [] then secrets
    else
      var before := ApplyMutations(secrets, mutations[..|mutations| - 1]);
      match mutations[|mutations| - 1]
      case Put(kind, envelope) => before[kind := envelope]
      case Delete(kind) => before - {kind}
  }

  function Lifetime(a: Admission): int {
    if a.ttl <= 0 then DEFAULT_LEASE_SECONDS else a.ttl
  }

  function WithoutReservationsOf(t: Tables, p: ProjectId): map<Resource, Reservation> {
    map r | r in t.reservations && t.reservations[r].project != p :: t.reservations[r]
  }

  /** Why AdmitConfiguration refuses, if it does; `row` is the candidate row its query happened to return. */
  function AdmitError(t: Tables, a: Admission, row: Option<OperationId>): Option<Error> {
    var p := a.project;
    if Blank(a.owner.text) then Some(OwnerRequired)
    else if a.operation.text == "" || a.operation != a.owner then Some(OwnerMismatch)
    else if exists r :: r in Resources(a.configuration) && HeldByOther(t, p, r) then Some(Conflict)
    else if !LeaseFree(t, p, a.now) then Some(Busy)
    else if p !in t.projects then Some(NotFound)
    else
      var next := Revision(p, t.projects[p].revision + 1);
      if next in t.aggregates && row.Some? && row.value in t.operations && t.operations[row.value].status.Active() then
        Some(Busy)
      else if a.operation in t.operations || a.operation in t.payloads then Some(UniqueViolation)
      else if next !in t.aggregates && (next in t.markers || t.VersionsOf(next) != map[]) then Some(UniqueViolation)
      else None
  }

  /** AdmitConfiguration. */
  function Admit(t: Tables, a: Admission, row: Option<OperationId>): Outcome {
    var refused := AdmitError(t, a, row);
    if refused.Some? then Aborted(refused.value) else Committed(Admitted(t, a))
  }

  /** One reservation row for each resource. */
  function RowsFor(resources: set<Resource>, row: Reservation): map<Resource, Reservation> {
    map r | r in resources :: row
  }

  /** The tables after a committed admission. */
  function Admitted(t: Tables, a: Admission): Tables
    requires a.project in t.projects
  {
    var p := a.project;
    var current := t.projects[p].revision;
    var next := Revision(p, current + 1);
    var stored := Redact(a.configuration).(revision := current + 1);
    var fence := NextFence(t, p);
    Tables(
      projects := if current == a.expectedRevision
                  then t.projects[p := t.projects[p].(revision := current + 1)]
                  else t.projects,
      aggregates := t.aggregates[next := stored],
      canonical := t.canonical[p := stored],
      secrets := t.secrets[p := ApplyMutations(t.SecretsOf(p), a.mutations)],
      versions := t.versions[next := t.SecretsOf(p)],
      markers := t.markers[next := t.SecretsOf(p) != map[]],
      reservations := WithoutReservationsOf(t, p)
                      + RowsFor(Resources(a.configuration), Reservation(p, a.operation, a.expectedRevision + 1)),
      allocations := t.allocations,
      leases := t.leases[p := Lease(a.owner, fence, a.now + Lifetime(a))],
      operations := t.operations[a.operation := OperationRow(p, a.status, "")],
      payloads := t.payloads[a.operation := Payload(p, current + 1, stored, fence)])
  }

  // ---------------------------------------------------------------------------------------------
  // Leases
  // ---------------------------------------------------------------------------------------------

  predicate Owns(t: Tables, p: ProjectId, owner: OperationId, fence: int) {
    p in t.leases && t.leases[p].owner == owner && t.leases[p].fence == fence
  }

  function Renew(t: Tables, p: ProjectId, owner: OperationId, fence: int, now: int, ttl: int): Outcome {
    var invalid := OwnerError(owner, fence);
    if invalid.Some? then Aborted(invalid.value)
    else if Owns(t, p, owner, fence) then Committed(t.(leases := t.leases[p := t.leases[p].(expires := now + ttl)]))
    else Committed(t)
  }

  function Release(t: Tables, p: ProjectId, owner: OperationId, fence: int): Outcome {
    var invalid := OwnerError(owner, fence);
    if invalid.Some? then Aborted(invalid.value)
    else if Owns(t, p, owner, fence) then Committed(t.(leases := t.leases - {p}))
    else Committed(t)
  }

  /** AcquireConfigurationLeaseForOperation. */
  function Acquire(t: Tables, p: ProjectId, owner: OperationId, operation: OperationId, now: int, ttl: int): Outcome {
    if Blank(owner.text) then Aborted(OwnerRequired)
    else if operation.text == "" || operation != owner then Aborted(OwnerMismatch)
    else if !LeaseFree(t, p, now) then Aborted(Busy)
    else if operation !in t.payloads || t.payloads[operation].project != p then Aborted(NotFound)
    else
      var fence := NextFence(t, p);
      Committed(t.(leases := t.leases[p := Lease(owner, fence, now + ttl)],
                   payloads := t.payloads[operation := t.payloads[operation].(fence := fence)]))
  }

  // ---------------------------------------------------------------------------------------------
  // Publication
  // ---------------------------------------------------------------------------------------------

  /** One kind of `updateCanonicalProjectionTx`: free the kind's port, then claim the configured one. */
  function ProjectPort(allocations: map<nat, Allocation>, p: ProjectId, e: PortEntry): Option<map<nat, Allocation>> {
    var freed := map port | port in allocations && allocations[port] != Allocation(p, e.kind) :: allocations[port];
    if !e.Claims() then Some(freed)
    else if e.port in freed then None
    else Some(freed[e.port := Allocation(p, e.kind)])
  }

  function ProjectPorts(allocations: map<nat, Allocation>, p: ProjectId, entries: seq<PortEntry>): Option<map<nat, Allocation>> {
    if entries == [] then Some(allocations)
    else
      match ProjectPorts(allocations, p, entries[..|entries| - 1])
      case None => None
      case Some(before) => ProjectPort(before, p, entries[|entries| - 1])
  }

  /** updateCanonicalProjectionTx; None when a unique key of the database refuses it. */
  function Project(t: Tables, p: ProjectId, c: Config): Option<Tables>
    requires p in t.projects
  {
    if exists q :: q in t.projects && q != p && t.projects[q].domain == c.domain then None
    else
      match ProjectPorts(t.allocations, p, PortEntries(c))
      case None => None
      case Some(allocations) =>
        Some(t.(canonical := t.canonical[p := Redact(c)],
                projects := t.projects[p := t.projects[p].(domain := c.domain)],
                allocations := allocations))
  }

  predicate Bound(t: Tables, p: ProjectId, owner: OperationId, revision: int, fence: int) {
    owner in t.payloads && t.payloads[owner].project == p
    && t.payloads[owner].revision == revision && t.payloads[owner].fence == fence
  }

  function WithoutReservationsAt(t: Tables, at: Revision): map<Resource, Reservation> {
    map r | r in t.reservations && !(t.reservations[r].project == at.project && t.reservations[r].revision == at.number)
      :: t.reservations[r]
  }

  function SetPhase(operations: map<OperationId, OperationRow>, o: OperationId, phase: string): map<OperationId, OperationRow> {
    if o in operations then operations[o := operations[o].(phase := phase)] else operations
  }

  function MarkGoodError(t: Tables, p: ProjectId, revision: int, owner: OperationId, fence: int, phase: string): Option<Error> {
    var invalid := OwnerError(owner, fence);
    if revision <= 0 then Some(Stale)
    else if invalid.Some? then invalid
    else if Blank(phase) then Some(PhaseRequired)
    else if p !in t.projects then Some(NotFound)
    else if revision != t.projects[p].revision then Some(Stale)
    else if Revision(p, revision) !in t.aggregates then Some(Stale)
    else if revision < t.projects[p].lastGood then Some(Stale)
    else if p !in t.leases then Some(NotFound)
    else if !Owns(t, p, owner, fence) then Some(Stale)
    else if owner !in t.payloads || t.payloads[owner].project != p then Some(NotFound)
    else if !Bound(t, p, owner, revision, fence) then Some(Stale)
    else None
  }

  /** The effect of a publication; None when a unique key refuses its projection. */
  function MarkedGood(t: Tables, p: ProjectId, owner: OperationId, phase: string): Option<Tables>
    requires p in t.projects && Revision(p, t.projects[p].revision) in t.aggregates
  {
    var at := Revision(p, t.projects[p].revision);
    match Project(t, p, t.aggregates[at])
    case None => None
    case Some(projected) =>
      Some(projected.(projects := projected.projects[p := projected.projects[p].(lastGood := at.number)],
                      reservations := WithoutReservationsAt(t, at),
                      operations := SetPhase(t.operations, owner, phase)))
  }

  /** MarkConfigurationGoodOwned. */
  function MarkGood(t: Tables, p: ProjectId, revision: int, owner: OperationId, fence: int, phase: string): Outcome {
    var refused := MarkGoodError(t, p, revision, owner, fence, phase);
    if refused.Some? then Aborted(refused.value)
    else
      match MarkedGood(t, p, owner, phase)
      case None => Aborted(UniqueViolation)
      case Some(marked) => Committed(marked)
  }

  /** The failed revision is not current any more, but this operation has already undone it. */
  predicate AlreadyRestored(t: Tables, p: ProjectId, failed: int, owner: OperationId) {
    && p in t.projects
    && t.projects[p].revision != failed
    && t.projects[p].revision == t.projects[p].lastGood
    && owner in t.operations && t.operations[owner].phase == STATE_RESTORED
  }

  function RestoreError(t: Tables, p: ProjectId, failed: int, owner: OperationId, fence: int): Option<Error> {
    var invalid := OwnerError(owner, fence);
    var at := Revision(p, failed);
    if invalid.Some? then invalid
    else if p !in t.projects then Some(NotFound)
    else if t.projects[p].revision != failed then
      if AlreadyRestored(t, p, failed, owner) then None else Some(Stale)
    else if p !in t.leases then Some(NotFound)
    else if !Owns(t, p, owner, fence) then Some(Stale)
    else if owner !in t.payloads || t.payloads[owner].project != p then Some(NotFound)
    else if !Bound(t, p, owner, failed, fence) then Some(Stale)
    else if Revision(p, t.projects[p].lastGood) !in t.aggregates || at !in t.markers then Some(NotFound)
    else if t.markers[at] && t.VersionsOf(at) == map[] then Some(SecretSnapshotUnavailable)
    else None
  }

  /** The effect of undoing the current revision; None when a unique key refuses its projection. */
  function Undone(t: Tables, p: ProjectId, owner: OperationId): Option<Tables>
    requires p in t.projects && Revision(p, t.projects[p].lastGood) in t.aggregates
    requires Revision(p, t.projects[p].revision) in t.markers
  {
    var at := Revision(p, t.projects[p].revision);
    var lastGood := t.projects[p].lastGood;
    match Project(t, p, t.aggregates[Revision(p, lastGood)])
    case None => None
    case Some(projected) =>
      Some(projected.(
        projects := projected.projects[p := projected.projects[p].(revision := lastGood)],
        secrets := t.secrets[p := if t.markers[at] then t.VersionsOf(at) else map[]],
        aggregates := t.aggregates - {at},
        versions := t.versions - {at},
        markers := t.markers - {at},
        reservations := WithoutReservationsAt(t, at),
        leases := t.leases - {p},
        operations := SetPhase(t.operations, owner, STATE_RESTORED)))
  }

  /** RestoreConfigurationStateOwned. */
  function Restore(t: Tables, p: ProjectId, failed: int, owner: OperationId, fence: int): Outcome {
    var refused := RestoreError(t, p, failed, owner, fence);
    if refused.Some? then Aborted(refused.value)
    else if t.projects[p].revision != failed then Committed(t)
    else
      match Undone(t, p, owner)
      case None => Aborted(UniqueViolation)
      case Some(undone) => Committed(undone)
  }

  /** PublishConfigurationSecret. */
  function Publish(t: Tables, p: ProjectId, revision: int, kind: string, envelope: Envelope): Outcome {
    if p !in t.projects then Aborted(NotFound)
    else if t.projects[p].revision != revision then Aborted(Stale)
    else Committed(t.(secrets := t.secrets[p := t.SecretsOf(p)[kind := envelope]]))
  }

  // ---------------------------------------------------------------------------------------------
  // Installation
  // ---------------------------------------------------------------------------------------------

  /** CreateProjectWithSecrets: both revisions start at 1 and no port is allocated yet. */
  function Create(t: Tables, p: ProjectId, c: Config, secrets: map<string, Envelope>): Outcome {
    var first := Revision(p, 1);
    if p in t.projects || (exists q :: q in t.projects && t.projects[q].domain == c.domain) then Aborted(UniqueViolation)
    else
      var stored := Redact(c).(revision := 1);
      Committed(t.(projects := t.projects[p := ProjectRow(1, 1, c.domain)],
                   aggregates := t.aggregates[first := stored],
                   canonical := t.canonical[p := stored],
                   secrets := t.secrets[p := secrets],
                   versions := t.versions[first := secrets],
                   markers := t.markers[first := secrets != map[]]))
  }

  predicate KindTaken(allocations: map<nat, Allocation>, p: ProjectId, kind: PortKind) {
    exists port :: port in allocations && allocations[port] == Allocation(p, kind)
  }

  /** Ports that nobody holds, for kinds the project has no port of yet, no port twice. */
  predicate Reservable(t: Tables, p: ProjectId, ports: map<PortKind, nat>) {
    && (forall kind | kind in ports ::
      && Port(ports[kind]) !in t.reservations
      && ports[kind] !in t.allocations
      && !KindTaken(t.allocations, p, kind))
    && (forall k, k' | k in ports && k' in ports && k != k' :: ports[k] != ports[k'])
  }

  /** One insert of TryReservePorts: refused by a pending reservation or by a unique key. */
  function ClaimPort(t: Tables, claimed: map<nat, Allocation>, p: ProjectId, kind: PortKind, port: nat): Option<map<nat, Allocation>> {
    if Port(port) in t.reservations || port in claimed || KindTaken(claimed, p, kind) then None
    else Some(claimed[port := Allocation(p, kind)])
  }

  function ClaimPorts(t: Tables, p: ProjectId, ports: map<PortKind, nat>, kinds: seq<PortKind>): Option<map<nat, Allocation>> {
    if kinds == [] then Some(t.allocations)
    else
      var last := kinds[|kinds| - 1];
      match ClaimPorts(t, p, ports, kinds[..|kinds| - 1])
      case None => None
      case Some(claimed) => if last in ports then ClaimPort(t, claimed, p, last, ports[last]) else Some(claimed)
  }

  const KINDS := [API, STUDIO, DATABASE, POOLER, POOLER_TRANSACTION, POOLER_SESSION]

  /** TryReservePorts: all the ports, or none. */
  function TryReserve(t: Tables, p: ProjectId, ports: map<PortKind, nat>): Outcome {
    match ClaimPorts(t, p, ports, KINDS)
    case None => Aborted(Conflict)
    case Some(claimed) => Committed(t.(allocations := claimed))
  }

  /** PersistAllocatedConfiguration. */
  function PersistAllocated(t: Tables, p: ProjectId, c: Config): Outcome {
    if p !in t.projects then Aborted(NotFound)
    else
      var at := Revision(p, t.projects[p].revision);
      var stored := Redact(c).(revision := at.number);
      if at !in t.aggregates then Aborted(NotFound)
      else
        match Project(t.(aggregates := t.aggregates[at := stored]), p, c.(revision := at.number))
        case None => Aborted(UniqueViolation)
        case Some(projected) => Committed(projected)
  }
}
