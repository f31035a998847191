/**
 * What a configuration transaction changes row by row, and what it leaves alone: the secrets an
 * admission mutates, the records of its operation, and every row of every other project.
 */
module ConfigurationIsolation {
  import opened Common
  import opened Configuration
  import opened ConfigurationTables
  import opened ConfigurationInvariants
  import opened ConfigurationRuns
  import opened ConfigurationCommits

  // ---------------------------------------------------------------------------------------------
  // Secrets
  // ---------------------------------------------------------------------------------------------

  /** The last mutation of a kind decides: its envelope is stored, or the kind is gone. */
  lemma {:induction false} LastMutationDecides(secrets: map<string, Envelope>, mutations: seq<SecretMutation>, k: nat)
    requires k < |mutations| && forall j | k < j < |mutations| :: mutations[j].kind != mutations[k].kind
    ensures var after := ApplyMutations(secrets, mutations);
      match mutations[k]
      case Put(kind, envelope) => kind in after && after[kind] == envelope
      case Delete(kind) => kind !in after
    decreases |mutations|
  {
    var n := |mutations| - 1;
    if k < n {
      assert mutations[n].kind != mutations[k].kind;
      LastMutationDecides(secrets, mutations[..n], k);
    }
  }

  /** A kind no mutation names stays as it was. */
  lemma {:induction false} UnnamedSecretStays(secrets: map<string, Envelope>, mutations: seq<SecretMutation>, kind: string)
    requires forall m | m in mutations :: m.kind != kind
    ensures SameAt(secrets, ApplyMutations(secrets, mutations), kind)
  {
    if mutations != [] {
      var n := |mutations| - 1;
      assert mutations[n] in mutations && forall m | m in mutations[..n] :: m in mutations;
      UnnamedSecretStays(secrets, mutations[..n], kind);
    }
  }

  /** A committed admission mutates the secrets of its project so, kind by kind, and no other project's. */
  lemma AdmissionMutatesSecrets(t: Tables, a: Admission, kind: string)
    requires a.project in t.projects
    ensures var before, after := t.SecretsOf(a.project), Admitted(t, a).SecretsOf(a.project);
      && ((forall m | m in a.mutations :: m.kind != kind) ==> SameAt(before, after, kind))
      && (forall k | 0 <= k < |a.mutations| && a.mutations[k].kind == kind
                     && (forall j | k < j < |a.mutations| :: a.mutations[j].kind != kind) ::
           if a.mutations[k].Put? then kind in after && after[kind] == a.mutations[k].envelope else kind !in after)
    ensures forall q | q != a.project :: Admitted(t, a).SecretsOf(q) == t.SecretsOf(q)
  {
    AdmittedSecretsOf(t, a);
    hide Admitted;
    if forall m | m in a.mutations :: m.kind != kind {
      UnnamedSecretStays(t.SecretsOf(a.project), a.mutations, kind);
    }
    forall k | 0 <= k < |a.mutations| && a.mutations[k].kind == kind && (forall j | k < j < |a.mutations| :: a.mutations[j].kind != kind)
      ensures var after := ApplyMutations(t.SecretsOf(a.project), a.mutations);
        if a.mutations[k].Put? then kind in after && after[kind] == a.mutations[k].envelope else kind !in after
    {
      LastMutationDecides(t.SecretsOf(a.project), a.mutations, k);
    }
  }

  lemma AdmittedSecretsOf(t: Tables, a: Admission)
    requires a.project in t.projects
    ensures Admitted(t, a).SecretsOf(a.project) == ApplyMutations(t.SecretsOf(a.project), a.mutations)
    ensures forall q | q != a.project :: Admitted(t, a).SecretsOf(q) == t.SecretsOf(q)
  {
    hide Redact, Resources;
  }

  /** Publishing a secret commits exactly at the current revision; the kind then holds the envelope and nothing else differs. */
  lemma PublishEffect(t: Tables, p: ProjectId, revision: int, kind: string, envelope: Envelope)
    ensures Publish(t, p, revision, kind, envelope).Committed? <==> p in t.projects && t.projects[p].revision == revision
    ensures var after := Apply(t, Publishing(p, revision, kind, envelope));
      && (p in t.projects && t.projects[p].revision == revision ==> kind in after.SecretsOf(p) && after.SecretsOf(p)[kind] == envelope)
      && (forall other | other != kind :: SameAt(t.SecretsOf(p), after.SecretsOf(p), other))
      && (forall q | q != p :: after.SecretsOf(q) == t.SecretsOf(q))
      && after == t.(secrets := after.secrets)
  {
  }

  // ---------------------------------------------------------------------------------------------
  // Operations and leases
  // ---------------------------------------------------------------------------------------------

  /**
   * A committed admission leaves its operation with the given status, a payload that carries the
   * redacted configuration, the new revision and the lease's fence, and the lease until its time.
   */
  lemma AdmissionRecordsOperation(t: Tables, a: Admission)
    requires a.project in t.projects
    ensures var after := Admitted(t, a);
      var revision := t.projects[a.project].revision + 1;
      && a.operation in after.operations && after.operations[a.operation] == OperationRow(a.project, a.status, "")
      && a.operation in after.payloads && a.project in after.leases
      && after.payloads[a.operation].project == a.project && after.payloads[a.operation].revision == revision
      && Revision(a.project, revision) in after.aggregates
      && after.payloads[a.operation].config == after.aggregates[Revision(a.project, revision)]
      && after.aggregates[Revision(a.project, revision)] == Redact(a.configuration).(revision := revision)
      && after.payloads[a.operation].fence == after.leases[a.project].fence
      && after.leases[a.project].owner == a.owner
      && after.leases[a.project].expires == a.now + (if a.ttl <= 0 then 2700 else a.ttl)
  {
    hide Redact, Resources;
  }

  /** A renewal by the holder moves the expiry, any other renewal changes nothing. */
  lemma RenewEffect(t: Tables, p: ProjectId, owner: OperationId, fence: int, now: int, ttl: int)
    requires Records(t) && Inv(t)
    ensures var after := Apply(t, Renewing(p, owner, fence, now, ttl));
      && (Owns(t, p, owner, fence) ==>
            Owns(after, p, owner, fence) && after.leases[p].expires == now + ttl && forall q | q != p :: SameAt(t.leases, after.leases, q))
      && (!Owns(t, p, owner, fence) ==> after == t)
      && after == t.(leases := after.leases)
  {
    hide Blank, LedgerKept, PendingKept, Stored, PortsExclusive, KindsUnique, SnapshotsKept, DomainsDiffer;
  }

  /** A release by the holder frees the lease, any other changes nothing. */
  lemma ReleaseEffect(t: Tables, p: ProjectId, owner: OperationId, fence: int)
    requires Records(t) && Inv(t)
    ensures var after := Apply(t, Releasing(p, owner, fence));
      && (Owns(t, p, owner, fence) ==> p !in after.leases && forall q | q != p :: SameAt(t.leases, after.leases, q))
      && (!Owns(t, p, owner, fence) ==> after == t)
      && after == t.(leases := after.leases)
  {
    hide Blank, LedgerKept, PendingKept, Stored, PortsExclusive, KindsUnique, SnapshotsKept, DomainsDiffer;
  }

  /** A lease is acquired exactly for an operation with a payload of the project while nobody holds it; the payload carries the new fence. */
  lemma AcquireEffect(t: Tables, p: ProjectId, owner: OperationId, operation: OperationId, now: int, ttl: int)
    ensures Acquire(t, p, owner, operation, now, ttl).Committed? <==>
      && !Blank(owner.text) && operation == owner && operation in t.payloads && t.payloads[operation].project == p
      && (p in t.leases ==> t.leases[p].expires <= now)
    ensures Acquire(t, p, owner, operation, now, ttl).Committed? ==>
      var after := Acquire(t, p, owner, operation, now, ttl).tables;
      && p in after.leases && after.leases[p].owner == owner && after.leases[p].expires == now + ttl
      && after.leases[p].fence == (if p in t.leases then t.leases[p].fence + 1 else 1)
      && operation in after.payloads && after.payloads[operation] == t.payloads[operation].(fence := after.leases[p].fence)
      && (forall q | q != p :: SameAt(t.leases, after.leases, q)) && (forall o | o != operation :: SameAt(t.payloads, after.payloads, o))
      && after == t.(leases := after.leases, payloads := after.payloads)
  {
    assert operation.text == "" ==> Blank(operation.text);
    hide Blank;
  }

  /** A project is created exactly when neither it nor its domain is there; both revisions start at 1 with its secrets as first snapshot. */
  lemma CreateEffect(t: Tables, p: ProjectId, c: Config, secrets: map<string, Envelope>)
    ensures Create(t, p, c, secrets).Committed? <==> p !in t.projects && forall q | q in t.projects :: t.projects[q].domain != c.domain
    ensures Create(t, p, c, secrets).Committed? ==>
      var after := Create(t, p, c, secrets).tables;
      && p in after.projects && after.projects[p] == ProjectRow(1, 1, c.domain)
      && after.SecretsOf(p) == secrets && after.VersionsOf(Revision(p, 1)) == secrets
      && Revision(p, 1) in after.markers && (after.markers[Revision(p, 1)] <==> secrets != map[])
      && p in after.canonical && Revision(p, 1) in after.aggregates && after.canonical[p] == after.aggregates[Revision(p, 1)] == Redact(c).(revision := 1)
      && after.allocations == t.allocations && after.reservations == t.reservations && after.leases == t.leases
      && after.operations == t.operations && after.payloads == t.payloads
  {
    hide Redact;
  }

  /**
   * A publication makes the current revision the last good one, notes its phase, and drops the
   * reservations it consumed; secrets, snapshots, leases and payloads stay.
   */
  lemma MarkGoodEffect(t: Tables, p: ProjectId, revision: int, owner: OperationId, fence: int, phase: string)
    requires MarkGood(t, p, revision, owner, fence, phase).Committed? && Records(t)
    ensures var after := MarkGood(t, p, revision, owner, fence, phase).tables;
      && p in after.projects && after.projects[p].revision == after.projects[p].lastGood == revision
      && owner in after.operations && after.operations[owner] == t.operations[owner].(phase := phase)
      && (forall o | o != owner :: SameAt(t.operations, after.operations, o))
      && (forall r :: r in after.reservations <==>
            r in t.reservations && !(t.reservations[r].project == p && t.reservations[r].revision == revision))
      && (forall r | r in after.reservations :: after.reservations[r] == t.reservations[r])
      && after.secrets == t.secrets && after.versions == t.versions && after.markers == t.markers && after.aggregates == t.aggregates
      && after.leases == t.leases && after.payloads == t.payloads
  {
    hide Project, SnapshotsKept, DomainsDiffer, Blank;
    ProjectingKeepsRecords(t, p, t.aggregates[Revision(p, revision)]);
  }

  // ---------------------------------------------------------------------------------------------
  // Other projects
  // ---------------------------------------------------------------------------------------------

  ghost predicate SameRevisions<V(!new)>(before: map<Revision, V>, after: map<Revision, V>, q: ProjectId) {
    forall r: Revision | r.project == q :: SameAt(before, after, r)
  }

  ghost predicate SameReservations(before: map<Resource, Reservation>, after: map<Resource, Reservation>, q: ProjectId) {
    && (forall r | r in before && before[r].project == q :: r in after && after[r] == before[r])
    && (forall r | r in after && after[r].project == q :: r in before && after[r] == before[r])
  }

  ghost predicate SameAllocations(before: map<nat, Allocation>, after: map<nat, Allocation>, q: ProjectId) {
    && (forall port | port in before && before[port].project == q :: port in after && after[port] == before[port])
    && (forall port | port in after && after[port].project == q :: port in before && after[port] == before[port])
  }

  ghost predicate SameOperations(before: map<OperationId, OperationRow>, after: map<OperationId, OperationRow>, q: ProjectId) {
    && (forall o | o in before && before[o].project == q :: o in after && after[o] == before[o])
    && (forall o | o in after && after[o].project == q :: o in before && after[o] == before[o])
  }

  ghost predicate SamePayloads(before: map<OperationId, Payload>, after: map<OperationId, Payload>, q: ProjectId) {
    && (forall o | o in before && before[o].project == q :: o in after && after[o] == before[o])
    && (forall o | o in after && after[o].project == q :: o in before && after[o] == before[o])
  }

  /** Every row of project q is as it was. */
  ghost predicate SameProject(t: Tables, after: Tables, q: ProjectId) {
    && SameAt(t.projects, after.projects, q) && SameAt(t.canonical, after.canonical, q)
    && SameAt(t.secrets, after.secrets, q) && SameAt(t.leases, after.leases, q)
    && SameRevisions(t.aggregates, after.aggregates, q)
    && SameRevisions(t.versions, after.versions, q)
    && SameRevisions(t.markers, after.markers, q)
    && SameReservations(t.reservations, after.reservations, q)
    && SameAllocations(t.allocations, after.allocations, q)
    && SameOperations(t.operations, after.operations, q)
    && SamePayloads(t.payloads, after.payloads, q)
  }

  /** A step is about project q. */
  ghost predicate Concerns(t: Tables, s: Step, q: ProjectId) {
    match s
    case Admitting(a, _) => a.project == q
    case SettingStatus(o, _) => o in t.operations && t.operations[o].project == q
    case SettingPhase(o, _) => o in t.operations && t.operations[o].project == q
    case _ => s.project == q
  }

  lemma SameItself(t: Tables, q: ProjectId)
    ensures SameProject(t, t, q)
  {
  }

  lemma UpdateElsewhere<V(!new)>(m: map<Revision, V>, at: Revision, v: V, q: ProjectId)
    requires at.project != q
    ensures SameRevisions(m, m[at := v], q) && SameRevisions(m, m - {at}, q)
  {
  }

  lemma OperationElsewhere(t: Tables, o: OperationId, row: OperationRow, payload: Payload, q: ProjectId)
    requires row.project != q && (o in t.operations ==> t.operations[o].project != q)
    requires payload.project != q && (o in t.payloads ==> t.payloads[o].project != q)
    ensures SameOperations(t.operations, t.operations[o := row], q) && SamePayloads(t.payloads, t.payloads[o := payload], q)
    ensures SameOperations(t.operations, t.operations, q) && SamePayloads(t.payloads, t.payloads, q)
  {
  }

  lemma ReservationsElsewhere(t: Tables, at: Revision, q: ProjectId)
    requires at.project != q
    ensures SameReservations(t.reservations, WithoutReservationsAt(t, at), q)
    ensures SameReservations(t.reservations, t.reservations, q)
  {
  }

  lemma AdmittingLeavesOthers(t: Tables, a: Admission, q: ProjectId)
    requires a.project in t.projects && a.project != q && a.operation !in t.operations && a.operation !in t.payloads
    requires Unheld(t, a.project, a.configuration)
    ensures SameProject(t, Admitted(t, a), q)
  {
    hide Redact, Resources, ApplyMutations, Unheld, WithoutReservationsOf, RowsFor;
    hide SameReservations, SameRevisions, SameAllocations, SameOperations, SamePayloads;
    AdmittingLeavesReservations(t, a, q);
    SameItself(t, q);
    var p := a.project;
    var current := t.projects[p].revision;
    var next := Revision(p, current + 1);
    var stored := Redact(a.configuration).(revision := current + 1);
    UpdateElsewhere(t.aggregates, next, stored, q);
    UpdateElsewhere(t.versions, next, t.SecretsOf(p), q);
    UpdateElsewhere(t.markers, next, t.SecretsOf(p) != map[], q);
    OperationElsewhere(t, a.operation, OperationRow(p, a.status, ""), Payload(p, current + 1, stored, NextFence(t, p)), q);
  }

  lemma AdmittingLeavesReservations(t: Tables, a: Admission, q: ProjectId)
    requires a.project in t.projects && a.project != q && Unheld(t, a.project, a.configuration)
    ensures SameReservations(t.reservations, Admitted(t, a).reservations, q)
  {
    hide Redact, Resources;
    forall r | r in t.reservations && t.reservations[r].project == q ensures r !in Resources(a.configuration) {
      assert HeldByOther(t, a.project, r);
    }
  }

  lemma ProjectingLeavesOthers(t: Tables, p: ProjectId, c: Config, q: ProjectId)
    requires p in t.projects && p != q && Project(t, p, c).Some?
    ensures SameProject(t, Project(t, p, c).value, q)
  {
    ProjectPortsEffect(t.allocations, p, PortEntries(c));
    assert SameAllocations(t.allocations, Project(t, p, c).value.allocations, q);
    hide Redact, PortEntries, ProjectPorts, Projected;
    hide SameReservations, SameRevisions, SameAllocations, SameOperations, SamePayloads;
    SameItself(t, q);
  }

  lemma SameTwice(a: Tables, b: Tables, c: Tables, q: ProjectId)
    requires SameProject(a, b, q) && SameProject(b, c, q)
    ensures SameProject(a, c, q)
  {
  }

  lemma PhaseElsewhere(t: Tables, o: OperationId, phase: string, q: ProjectId)
    requires o in t.operations ==> t.operations[o].project != q
    ensures SameOperations(t.operations, SetPhase(t.operations, o, phase), q)
  {
  }

  lemma MarkingGoodLeavesOthers(t: Tables, p: ProjectId, owner: OperationId, phase: string, q: ProjectId)
    requires p in t.projects && p != q && Revision(p, t.projects[p].revision) in t.aggregates && MarkedGood(t, p, owner, phase).Some?
    requires owner in t.operations ==> t.operations[owner].project != q
    ensures SameProject(t, MarkedGood(t, p, owner, phase).value, q)
  {
    hide Project, WithoutReservationsAt, SetPhase;
    hide SameReservations, SameRevisions, SameAllocations, SameOperations, SamePayloads;
    var at := Revision(p, t.projects[p].revision);
    ProjectingLeavesOthers(t, p, t.aggregates[at], q);
    ReservationsElsewhere(t, at, q);
    PhaseElsewhere(t, owner, phase, q);
  }

  lemma UndoingLeavesOthers(t: Tables, p: ProjectId, owner: OperationId, q: ProjectId)
    requires p in t.projects && p != q && Revision(p, t.projects[p].lastGood) in t.aggregates
    requires Revision(p, t.projects[p].revision) in t.markers && Undone(t, p, owner).Some?
    requires owner in t.operations ==> t.operations[owner].project != q
    ensures SameProject(t, Undone(t, p, owner).value, q)
  {
    hide Project, WithoutReservationsAt, SetPhase;
    hide SameReservations, SameRevisions, SameAllocations, SameOperations, SamePayloads;
    var at := Revision(p, t.projects[p].revision);
    var base := t.aggregates[Revision(p, t.projects[p].lastGood)];
    ProjectingLeavesOthers(t, p, base, q);
    ReservationsElsewhere(t, at, q);
    PhaseElsewhere(t, owner, STATE_RESTORED, q);
    UpdateElsewhere(t.aggregates, at, base, q);
    UpdateElsewhere(t.versions, at, map[], q);
    UpdateElsewhere(t.markers, at, true, q);
  }

  lemma CreatingLeavesOthers(t: Tables, p: ProjectId, c: Config, secrets: map<string, Envelope>, q: ProjectId)
    requires p != q
    ensures SameProject(t, Apply(t, Creating(p, c, secrets)), q)
  {
    hide Redact, SameReservations, SameRevisions, SameAllocations, SameOperations, SamePayloads;
    SameItself(t, q);
    UpdateElsewhere(t.aggregates, Revision(p, 1), Redact(c).(revision := 1), q);
    UpdateElsewhere(t.versions, Revision(p, 1), secrets, q);
    UpdateElsewhere(t.markers, Revision(p, 1), secrets != map[], q);
  }

  lemma PersistingLeavesOthers(t: Tables, p: ProjectId, c: Config, q: ProjectId)
    requires p != q
    ensures SameProject(t, Apply(t, Persisting(p, c)), q)
  {
    hide Project, Redact, SameReservations, SameRevisions, SameAllocations, SameOperations, SamePayloads;
    SameItself(t, q);
    if PersistAllocated(t, p, c).Committed? {
      var at := Revision(p, t.projects[p].revision);
      var stored := Redact(c).(revision := at.number);
      var staged := t.(aggregates := t.aggregates[at := stored]);
      UpdateElsewhere(t.aggregates, at, stored, q);
      ProjectingLeavesOthers(staged, p, c.(revision := at.number), q);
      hide PersistAllocated;
      SameTwice(t, staged, Apply(t, Persisting(p, c)), q);
    }
  }

  lemma ReservingLeavesOthers(t: Tables, p: ProjectId, ports: map<PortKind, nat>, q: ProjectId)
    requires p != q
    ensures SameProject(t, Apply(t, Reserving(p, ports)), q)
  {
    hide ClaimPorts, SameReservations, SameRevisions, SameAllocations, SameOperations, SamePayloads;
    SameItself(t, q);
    if ClaimPorts(t, p, ports, KINDS).Some? {
      ClaimingLeavesOthers(t, p, ports, KINDS, q);
    }
  }

  lemma {:induction false} ClaimingLeavesOthers(t: Tables, p: ProjectId, ports: map<PortKind, nat>, kinds: seq<PortKind>, q: ProjectId)
    requires p != q && ClaimPorts(t, p, ports, kinds).Some?
    ensures SameAllocations(t.allocations, ClaimPorts(t, p, ports, kinds).value, q)
  {
    if kinds != [] {
      ClaimingLeavesOthers(t, p, ports, kinds[..|kinds| - 1], q);
    }
  }

  lemma UpkeepLeavesOthers(t: Tables, s: Step, q: ProjectId)
    requires s.Renewing? || s.Releasing? || s.Acquiring? || s.Publishing? || s.SettingStatus? || s.SettingPhase?
    requires !Concerns(t, s, q)
    ensures SameProject(t, Apply(t, s), q)
  {
    hide Blank, SameReservations, SameRevisions, SameAllocations;
    SameItself(t, q);
  }

  /** No step about one project changes a row of another. */
  lemma StepLeavesOthersAlone(t: Tables, s: Step, q: ProjectId)
    requires Records(t) && !Concerns(t, s, q)
    ensures SameProject(t, Apply(t, s), q)
  {
    hide SameProject;
    match s
    case Admitting(a, row) =>
      hide Admitted, AdmitError;
      SameItself(t, q);
      if Admit(t, a, row).Committed? {
        AdmitFacts(t, a, row);
        AdmittingLeavesOthers(t, a, q);
      }
    case MarkingGood(p, revision, owner, fence, phase) =>
      hide MarkedGood;
      SameItself(t, q);
      if MarkGood(t, p, revision, owner, fence, phase).Committed? {
        MarkingGoodLeavesOthers(t, p, owner, phase, q);
      }
    case Restoring(p, revision, owner, fence) =>
      hide Undone;
      SameItself(t, q);
      if Restore(t, p, revision, owner, fence).Committed? && t.projects[p].revision == revision {
        UndoingLeavesOthers(t, p, owner, q);
      }
    case Creating(p, c, secrets) => hide Apply; CreatingLeavesOthers(t, p, c, secrets, q);
    case Persisting(p, c) => hide Apply; PersistingLeavesOthers(t, p, c, q);
    case Reserving(p, ports) => hide Apply; ReservingLeavesOthers(t, p, ports, q);
    case _ => hide Apply; UpkeepLeavesOthers(t, s, q);
  }

  ghost predicate ElsewhereRun(t: Tables, steps: seq<Step>, q: ProjectId)
    decreases |steps|
  {
    steps != [] ==> !Concerns(t, steps[0], q) && ElsewhereRun(Apply(t, steps[0]), steps[1..], q)
  }

  /** Whatever other projects do, every row of a project is as it was. */
  lemma {:induction false} RunLeavesOthersAlone(t: Tables, steps: seq<Step>, q: ProjectId)
    requires Records(t) && ElsewhereRun(t, steps, q)
    ensures SameProject(t, Run(t, steps), q)
    decreases |steps|
  {
    hide SameProject, Records, Apply, Concerns;
    if steps == [] {
      SameItself(t, q);
    } else {
      StepKeepsRecords(t, steps[0]);
      StepLeavesOthersAlone(t, steps[0], q);
      RunLeavesOthersAlone(Apply(t, steps[0]), steps[1..], q);
      SameTwice(t, Apply(t, steps[0]), Run(t, steps), q);
    }
  }
}
