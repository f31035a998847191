/**
 * The store itself: each transaction works on its own copy of the tables, statement by statement, and
 * replaces them only when it commits.
 */
module ConfigurationStore {
  import opened Common
  import opened Configuration
  import opened ConfigurationTables
  import Effects = ConfigurationIsolation

  method FindConflict(t: Tables, p: ProjectId, resources: set<Resource>) returns (conflict: bool)
    ensures conflict <==> exists r :: r in resources && HeldByOther(t, p, r)
  {
    var remaining := resources;
    while remaining != {}
      invariant remaining <= resources
      invariant forall r | r in resources && r !in remaining :: !HeldByOther(t, p, r)
    {
      var r :| r in remaining;
      if HeldByOther(t, p, r) {
        return true;
      }
      remaining := remaining - {r};
    }
    return false;
  }

  method ReserveAll(reservations: map<Resource, Reservation>, resources: set<Resource>, row: Reservation)
    returns (after: map<Resource, Reservation>)
    ensures after == reservations + RowsFor(resources, row)
  {
    after := reservations;
    var remaining := resources;
    while remaining != {}
      invariant remaining <= resources
      invariant after == reservations + RowsFor(resources - remaining, row)
    {
      var r :| r in remaining;
      after := after[r := row];
      remaining := remaining - {r};
    }
    assert resources - remaining == resources;
  }

  method MutateSecrets(secrets: map<string, Envelope>, mutations: seq<SecretMutation>) returns (after: map<string, Envelope>)
    ensures after == ApplyMutations(secrets, mutations)
    // The last mutation of a kind decides; a kind without one stays.
    ensures forall k | 0 <= k < |mutations| && (forall j | k < j < |mutations| :: mutations[j].kind != mutations[k].kind) ::
      if mutations[k].Put? then mutations[k].kind in after && after[mutations[k].kind] == mutations[k].envelope
      else mutations[k].kind !in after
    ensures forall kind: string | (forall m | m in mutations :: m.kind != kind) :: SameAt(secrets, after, kind)
  {
    after := secrets;
    for i := 0 to |mutations|
      invariant after == ApplyMutations(secrets, mutations[..i])
    {
      assert mutations[..i + 1][..i] == mutations[..i];
      match mutations[i]
      case Put(kind, envelope) => after := after[kind := envelope];
      case Delete(kind) => after := after - {kind};
    }
    assert mutations[..|mutations|] == mutations;
    hide ApplyMutations;
    forall k | 0 <= k < |mutations| && (forall j | k < j < |mutations| :: mutations[j].kind != mutations[k].kind)
      ensures if mutations[k].Put? then mutations[k].kind in after && after[mutations[k].kind] == mutations[k].envelope
        else mutations[k].kind !in after
    {
      Effects.LastMutationDecides(secrets, mutations, k);
    }
    forall kind: string | forall m | m in mutations :: m.kind != kind ensures SameAt(secrets, after, kind) {
      Effects.UnnamedSecretStays(secrets, mutations, kind);
    }
  }

  /** updateCanonicalProjectionTx: canonical row, project row, then one port kind after the other. */
  method UpdateCanonicalProjection(t: Tables, p: ProjectId, c: Config) returns (projected: Option<Tables>)
    requires p in t.projects
    ensures projected == Project(t, p, c)
  {
    if exists q :: q in t.projects && q != p && t.projects[q].domain == c.domain {
      return None;
    }
    var allocations := t.allocations;
    var entries := PortEntries(c);
    for i := 0 to |entries|
      invariant ProjectPorts(t.allocations, p, entries[..i]) == Some(allocations)
    {
      assert entries[..i + 1][..i] == entries[..i];
      var e := entries[i];
      var freed := map port | port in allocations && allocations[port] != Allocation(p, e.kind) :: allocations[port];
      if e.Claims() && e.port in freed {
        assert ProjectPorts(t.allocations, p, entries[..i + 1]) == None;
        RefusedPrefix(t.allocations, p, entries, i + 1);
        return None;
      }
      allocations := if e.Claims() then freed[e.port := Allocation(p, e.kind)] else freed;
    }
    assert entries[..|entries|] == entries;
    return Some(t.(canonical := t.canonical[p := Redact(c)],
                   projects := t.projects[p := t.projects[p].(domain := c.domain)],
                   allocations := allocations));
  }

  /** A projection that is refused at one kind is refused as a whole. */
  lemma {:induction false} RefusedPrefix(allocations: map<nat, Allocation>, p: ProjectId, entries: seq<PortEntry>, n: nat)
    requires n <= |entries| && ProjectPorts(allocations, p, entries[..n]).None?
    ensures ProjectPorts(allocations, p, entries).None?
    decreases |entries|
  {
    if n < |entries| {
      assert entries[..|entries| - 1][..n] == entries[..n];
      RefusedPrefix(allocations, p, entries[..|entries| - 1], n);
    } else {
      assert entries[..n] == entries;
    }
  }

  /** The checks of AdmitConfiguration, in order, and the candidate row its query returned. */
  method CheckAdmission(t: Tables, a: Admission) returns (error: Option<Error>, row: Option<OperationId>)
    ensures a.project in t.projects ==> IsCandidateRow(t, Revision(a.project, t.projects[a.project].revision + 1), row)
    ensures error == AdmitError(t, a, row)
  {
    hide PortEntries, Resources, HeldByOther, Blank;
    var p := a.project;
    row := None;
    if p in t.projects {
      var candidate := Revision(p, t.projects[p].revision + 1);
      if o :| o in t.payloads && BoundTo(t, candidate, o) {
        row := Some(o);
      }
    }
    if Blank(a.owner.text) {
      return Some(OwnerRequired), row;
    }
    if a.operation.text == "" || a.operation != a.owner {
      return Some(OwnerMismatch), row;
    }
    var conflict := FindConflict(t, p, Resources(a.configuration));
    if conflict {
      return Some(Conflict), row;
    }
    if p in t.leases && a.now < t.leases[p].expires {
      return Some(Busy), row;
    }
    if p !in t.projects {
      return Some(NotFound), row;
    }
    var next := Revision(p, t.projects[p].revision + 1);
    if next in t.aggregates && row.Some? && row.value in t.operations && t.operations[row.value].status.Active() {
      return Some(Busy), row;
    }
    if a.operation in t.operations || a.operation in t.payloads {
      return Some(UniqueViolation), row;
    }
    if next !in t.aggregates && (next in t.markers || t.VersionsOf(next) != map[]) {
      return Some(UniqueViolation), row;
    }
    return None, row;
  }

  /** Insert the snapshot rows of a revision, reclaiming the rows a stale candidate left there. */
  method StoreSnapshot(t: Tables, next: Revision, stored: Config, secrets: map<string, Envelope>)
    returns (aggregates: map<Revision, Config>, versions: map<Revision, map<string, Envelope>>, markers: map<Revision, bool>)
    ensures aggregates == t.aggregates[next := stored]
    ensures versions == t.versions[next := secrets]
    ensures markers == t.markers[next := secrets != map[]]
  {
    aggregates, versions, markers := t.aggregates, t.versions, t.markers;
    if next in aggregates {
      aggregates, versions, markers := aggregates - {next}, versions - {next}, markers - {next};
    }
    aggregates := aggregates[next := stored];
    versions := versions[next := secrets];
    markers := markers[next := secrets != map[]];
  }

  /** The lease, the operation and the reservations of an admission. */
  method WriteClaims(t: Tables, a: Admission)
    returns (leases: map<ProjectId, Lease>, operations: map<OperationId, OperationRow>, reservations: map<Resource, Reservation>)
    requires a.project in t.projects
    ensures var whole := Admitted(t, a);
      leases == whole.leases && operations == whole.operations && reservations == whole.reservations
  {
    hide Redact, PortEntries, Resources, ApplyMutations, WithoutReservationsOf, Lifetime, RowsFor;
    var p := a.project;
    var fence := if p in t.leases then t.leases[p].fence + 1 else 1;
    leases := t.leases[p := Lease(a.owner, fence, a.now + Lifetime(a))];
    operations := t.operations[a.operation := OperationRow(p, a.status, "")];
    reservations := ReserveAll(
      WithoutReservationsOf(t, p), Resources(a.configuration), Reservation(p, a.operation, a.expectedRevision + 1));
  }

  /** The revision counter, the secrets and the payload of an admission. */
  method WriteRevision(t: Tables, a: Admission, stored: Config)
    returns (projects: map<ProjectId, ProjectRow>, secrets: map<ProjectId, map<string, Envelope>>, payloads: map<OperationId, Payload>)
    requires a.project in t.projects && stored == Redact(a.configuration).(revision := t.projects[a.project].revision + 1)
    ensures var whole := Admitted(t, a);
      projects == whole.projects && secrets == whole.secrets && payloads == whole.payloads
  {
    hide Redact, PortEntries, Resources, ApplyMutations, WithoutReservationsOf, Lifetime, RowsFor;
    var p := a.project;
    var fence := if p in t.leases then t.leases[p].fence + 1 else 1;
    projects := t.projects;
    if projects[p].revision == a.expectedRevision {
      projects := projects[p := projects[p].(revision := projects[p].revision + 1)];
    }
    var mutated := MutateSecrets(t.SecretsOf(p), a.mutations);
    secrets := t.secrets[p := mutated];
    payloads := t.payloads[a.operation := Payload(p, t.projects[p].revision + 1, stored, fence)];
  }

  /** The writes of AdmitConfiguration. */
  method WriteAdmission(t: Tables, a: Admission) returns (tx: Tables)
    requires a.project in t.projects
    ensures tx == Admitted(t, a)
  {
    hide Redact, PortEntries, Resources, ApplyMutations, WithoutReservationsOf, Lifetime, RowsFor;
    var p := a.project;
    var next := Revision(p, t.projects[p].revision + 1);
    var stored := Redact(a.configuration).(revision := next.number);
    var leases, operations, reservations := WriteClaims(t, a);
    var aggregates, versions, markers := StoreSnapshot(t, next, stored, t.SecretsOf(p));
    var projects, secrets, payloads := WriteRevision(t, a, stored);
    tx := Tables(projects, aggregates, t.canonical[p := stored], secrets, versions, markers, reservations,
                 t.allocations, leases, operations, payloads);
  }

  lemma {:induction false} RefusedClaim(t: Tables, p: ProjectId, ports: map<PortKind, nat>, kinds: seq<PortKind>, n: nat)
    requires n <= |kinds| && ClaimPorts(t, p, ports, kinds[..n]).None?
    ensures ClaimPorts(t, p, ports, kinds).None?
    decreases |kinds|
  {
    if n < |kinds| {
      assert kinds[..|kinds| - 1][..n] == kinds[..n];
      RefusedClaim(t, p, ports, kinds[..|kinds| - 1], n);
    } else {
      assert kinds[..n] == kinds;
    }
  }

  /** One port after the other; the first refusal abandons the whole set. */
  method ReservePorts(t: Tables, p: ProjectId, ports: map<PortKind, nat>) returns (allocations: Option<map<nat, Allocation>>)
    ensures allocations == ClaimPorts(t, p, ports, KINDS)
  {
    var claimed := t.allocations;
    for i := 0 to |KINDS|
      invariant ClaimPorts(t, p, ports, KINDS[..i]) == Some(claimed)
    {
      assert KINDS[..i + 1][..i] == KINDS[..i];
      var kind := KINDS[i];
      if kind in ports {
        var port := ports[kind];
        if Port(port) in t.reservations || port in claimed || KindTaken(claimed, p, kind) {
          assert ClaimPorts(t, p, ports, KINDS[..i + 1]) == None;
          RefusedClaim(t, p, ports, KINDS, i + 1);
          return None;
        }
        claimed := claimed[port := Allocation(p, kind)];
      }
    }
    assert KINDS[..|KINDS|] == KINDS;
    return Some(claimed);
  }

  class Store {
    var tables: Tables

    constructor (initial: Tables)
      ensures tables == initial
    {
      tables := initial;
    }

    method AdmitConfiguration(a: Admission) returns (outcome: Outcome, row: Option<OperationId>)
      modifies this
      ensures a.project in old(tables).projects ==>
        IsCandidateRow(old(tables), Revision(a.project, old(tables).projects[a.project].revision + 1), row)
      ensures outcome == Admit(old(tables), a, row)
      ensures tables == if outcome.Committed? then outcome.tables else old(tables)
    {
      hide IsCandidateRow, Admitted;
      var error;
      error, row := CheckAdmission(tables, a);
      if error.Some? {
        return Aborted(error.value), row;
      }
      assert a.project in tables.projects by { hide Resources, HeldByOther, Blank; }
      var tx := WriteAdmission(tables, a);
      tables := tx;
      outcome := Committed(tx);
    }

    method MarkConfigurationGood(p: ProjectId, revision: int, owner: OperationId, fence: int, phase: string) returns (outcome: Outcome)
      modifies this
      ensures outcome == MarkGood(old(tables), p, revision, owner, fence, phase)
      ensures tables == if outcome.Committed? then outcome.tables else old(tables)
    {
      hide Project;
      var refused := MarkGoodError(tables, p, revision, owner, fence, phase);
      if refused.Some? {
        return Aborted(refused.value);
      }
      var at := Revision(p, revision);
      var projected := UpdateCanonicalProjection(tables, p, tables.aggregates[at]);
      if projected.None? {
        return Aborted(UniqueViolation);
      }
      var tx := projected.value;
      ProjectKeepsRow(tables, p, tables.aggregates[at]);
      tx := tx.(projects := tx.projects[p := tx.projects[p].(lastGood := revision)]);
      tx := tx.(reservations := WithoutReservationsAt(tables, at));
      tx := tx.(operations := SetPhase(tables.operations, owner, phase));
      tables := tx;
      return Committed(tx);
    }

    method RestoreConfigurationState(p: ProjectId, failed: int, owner: OperationId, fence: int) returns (outcome: Outcome)
      modifies this
      ensures outcome == Restore(old(tables), p, failed, owner, fence)
      ensures tables == if outcome.Committed? then outcome.tables else old(tables)
    {
      hide Project;
      var refused := RestoreError(tables, p, failed, owner, fence);
      if refused.Some? {
        return Aborted(refused.value);
      }
      if tables.projects[p].revision != failed {
        return Committed(tables);
      }
      var at, lastGood := Revision(p, failed), tables.projects[p].lastGood;
      var restored := if tables.markers[at] then tables.VersionsOf(at) else map[];
      var projected := UpdateCanonicalProjection(tables, p, tables.aggregates[Revision(p, lastGood)]);
      if projected.None? {
        return Aborted(UniqueViolation);
      }
      var tx := projected.value;
      ProjectKeepsRow(tables, p, tables.aggregates[Revision(p, lastGood)]);
      tx := tx.(projects := tx.projects[p := tx.projects[p].(revision := lastGood)]);
      tx := tx.(secrets := tables.secrets[p := restored]);
      tx := tx.(aggregates := tables.aggregates - {at}, versions := tables.versions - {at}, markers := tables.markers - {at});
      tx := tx.(reservations := WithoutReservationsAt(tables, at));
      tx := tx.(leases := tables.leases - {p});
      tx := tx.(operations := SetPhase(tables.operations, owner, STATE_RESTORED));
      tables := tx;
      return Committed(tx);
    }

    method TryReservePorts(p: ProjectId, ports: map<PortKind, nat>) returns (reserved: bool)
      modifies this
      ensures reserved <==> TryReserve(old(tables), p, ports).Committed?
      ensures tables == if reserved then TryReserve(old(tables), p, ports).tables else old(tables)
    {
      hide ClaimPorts;
      var allocations := ReservePorts(tables, p, ports);
      if allocations.None? {
        return false;
      }
      tables := tables.(allocations := allocations.value);
      return true;
    }
  }

  lemma ProjectKeepsRow(t: Tables, p: ProjectId, c: Config)
    requires p in t.projects && Project(t, p, c).Some?
    ensures p in Project(t, p, c).value.projects
  {
  }
}
