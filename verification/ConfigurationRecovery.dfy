/** Undoing an admission: what a project gets back, whatever other projects did meanwhile. */
module ConfigurationRecovery {
  import opened Common
  import opened Configuration
  import opened ConfigurationTables
  import opened ConfigurationInvariants
  import opened ConfigurationRuns

  // ---------------------------------------------------------------------------------------------
  // Admission followed by an undo
  // ---------------------------------------------------------------------------------------------

  /** A step that neither replaces, publishes nor undoes a revision of project p. */
  predicate Quiet(s: Step, p: ProjectId) {
    match s
    case Admitting(a, _) => a.project != p
    case MarkingGood(q, _, _, _, _) => q != p
    case Restoring(q, _, _, _) => q != p
    case Creating(q, _, _) => q != p
    case Persisting(q, _) => q != p
    case _ => true
  }

  ghost predicate Same<V(!new)>(before: map<Revision, V>, after: map<Revision, V>, p: ProjectId) {
    forall r: Revision | r.project == p :: (r in before <==> r in after) && (r in before ==> before[r] == after[r])
  }

  /** The revisions, snapshots and secret versions of project p are as they were. */
  ghost predicate SameSnapshots(t: Tables, after: Tables, p: ProjectId) {
    && p in t.projects && p in after.projects && after.projects[p] == t.projects[p]
    && Same(t.aggregates, after.aggregates, p)
    && Same(t.versions, after.versions, p)
    && Same(t.markers, after.markers, p)
  }

  lemma AdmittingElsewhere(t: Tables, a: Admission, p: ProjectId)
    requires p in t.projects && a.project in t.projects && a.project != p
    ensures SameSnapshots(t, Admitted(t, a), p)
  {
  }

  lemma ProjectingElsewhere(t: Tables, q: ProjectId, c: Config, p: ProjectId)
    requires p in t.projects && q in t.projects && p != q && Project(t, q, c).Some?
    ensures SameSnapshots(t, Project(t, q, c).value, p)
  {
  }

  lemma MarkingGoodElsewhere(t: Tables, q: ProjectId, owner: OperationId, phase: string, p: ProjectId)
    requires p in t.projects && q in t.projects && p != q && Revision(q, t.projects[q].revision) in t.aggregates
    requires MarkedGood(t, q, owner, phase).Some?
    ensures SameSnapshots(t, MarkedGood(t, q, owner, phase).value, p)
  {
  }

  lemma UndoingElsewhere(t: Tables, q: ProjectId, owner: OperationId, p: ProjectId)
    requires p in t.projects && q in t.projects && p != q
    requires Revision(q, t.projects[q].lastGood) in t.aggregates && Revision(q, t.projects[q].revision) in t.markers
    requires Undone(t, q, owner).Some?
    ensures SameSnapshots(t, Undone(t, q, owner).value, p)
  {
  }

  lemma CreatingElsewhere(t: Tables, q: ProjectId, c: Config, secrets: map<string, Envelope>, p: ProjectId)
    requires p in t.projects && p != q
    ensures SameSnapshots(t, Apply(t, Creating(q, c, secrets)), p)
  {
    hide Redact, Same;
    var first := Revision(q, 1);
    UpdatingElsewhere(t.aggregates, first, Redact(c).(revision := 1), p);
    UpdatingElsewhere(t.versions, first, secrets, p);
    UpdatingElsewhere(t.markers, first, secrets != map[], p);
    NothingChanges(t, p);
  }

  lemma UpdatingElsewhere<V(!new)>(m: map<Revision, V>, at: Revision, v: V, p: ProjectId)
    requires at.project != p
    ensures Same(m, m[at := v], p)
  {
  }

  lemma ReservingElsewhere(t: Tables, q: ProjectId, ports: map<PortKind, nat>, p: ProjectId)
    requires p in t.projects
    ensures SameSnapshots(t, Apply(t, Reserving(q, ports)), p)
  {
    hide ClaimPorts, Same;
    NothingChanges(t, p);
  }

  lemma PersistingElsewhere(t: Tables, q: ProjectId, c: Config, p: ProjectId)
    requires p in t.projects && p != q
    ensures SameSnapshots(t, Apply(t, Persisting(q, c)), p)
  {
    if PersistAllocated(t, q, c).Committed? {
      hide Project, Redact, Same;
      var at := Revision(q, t.projects[q].revision);
      var staged := t.(aggregates := t.aggregates[at := Redact(c).(revision := at.number)]);
      StagingElsewhere(t, at, Redact(c).(revision := at.number), p);
      ProjectingElsewhere(staged, q, c.(revision := at.number), p);
      SameTwice(t, staged, Apply(t, Persisting(q, c)), p);
    } else {
      NothingChanges(t, p);
    }
  }

  lemma StagingElsewhere(t: Tables, at: Revision, c: Config, p: ProjectId)
    requires p in t.projects && at.project != p
    ensures SameSnapshots(t, t.(aggregates := t.aggregates[at := c]), p)
  {
  }

  lemma SameTwice(a: Tables, b: Tables, c: Tables, p: ProjectId)
    requires SameSnapshots(a, b, p) && SameSnapshots(b, c, p)
    ensures SameSnapshots(a, c, p)
  {
  }

  /** Steps of other projects, secret publications and lease upkeep leave the snapshots of p alone. */
  lemma QuietStepKeepsSnapshots(t: Tables, s: Step, p: ProjectId)
    requires p in t.projects && Quiet(s, p)
    ensures SameSnapshots(t, Apply(t, s), p)
  {
    hide SameSnapshots;
    match s
    case Admitting(a, row) =>
      hide AdmitError, Admitted;
      if AdmitError(t, a, row).None? {
        AdmitFacts(t, a, row);
        AdmittingElsewhere(t, a, p);
      } else {
        NothingChanges(t, p);
      }
    case MarkingGood(q, revision, owner, fence, phase) =>
      hide MarkedGood;
      if MarkGood(t, q, revision, owner, fence, phase).Committed? {
        MarkingGoodElsewhere(t, q, owner, phase, p);
      } else {
        NothingChanges(t, p);
      }
    case Restoring(q, revision, owner, fence) =>
      hide Undone;
      if Restore(t, q, revision, owner, fence).Committed? && t.projects[q].revision == revision {
        UndoingElsewhere(t, q, owner, p);
      } else {
        NothingChanges(t, p);
      }
    case Creating(q, c, secrets) => hide Apply; CreatingElsewhere(t, q, c, secrets, p);
    case Reserving(q, ports) => hide Apply; ReservingElsewhere(t, q, ports, p);
    case Persisting(q, c) => hide Apply; PersistingElsewhere(t, q, c, p);
    case _ => UpkeepKeepsSnapshots(t, s, p);
  }

  lemma NothingChanges(t: Tables, p: ProjectId)
    requires p in t.projects
    ensures SameSnapshots(t, t, p)
  {
  }

  lemma UpkeepKeepsSnapshots(t: Tables, s: Step, p: ProjectId)
    requires p in t.projects
    requires s.Renewing? || s.Releasing? || s.Acquiring? || s.Publishing? || s.SettingStatus? || s.SettingPhase?
    ensures SameSnapshots(t, Apply(t, s), p)
  {
    hide Apply;
    if s.Renewing? || s.Releasing? || s.Acquiring? {
      LeaseStepsTouchLeasesOnly(t, s);
    } else {
      RecordsTouchRecordsOnly(t, s);
    }
  }

  lemma {:induction false} QuietRunKeepsSnapshots(t: Tables, steps: seq<Step>, p: ProjectId)
    requires p in t.projects && forall s | s in steps :: Quiet(s, p)
    ensures SameSnapshots(t, Run(t, steps), p)
    decreases |steps|
  {
    if steps != [] {
      hide Apply, Quiet;
      QuietStepKeepsSnapshots(t, steps[0], p);
      QuietRunKeepsSnapshots(Apply(t, steps[0]), steps[1..], p);
    }
  }

  lemma UndoneProject(t: Tables, p: ProjectId, owner: OperationId)
    requires p in t.projects && Revision(p, t.projects[p].lastGood) in t.aggregates
    requires Revision(p, t.projects[p].revision) in t.markers && Undone(t, p, owner).Some?
    ensures var after := Undone(t, p, owner).value;
      var at := Revision(p, t.projects[p].revision);
      && p in after.projects && after.projects[p].revision == t.projects[p].lastGood
      && after.SecretsOf(p) == (if t.markers[at] then t.VersionsOf(at) else map[])
      && p !in after.leases
      && (forall r | r in after.reservations && after.reservations[r].project == p :: after.reservations[r].revision != at.number)
      && p in after.canonical && after.canonical[p] == Redact(t.aggregates[Revision(p, t.projects[p].lastGood)])
  {
  }

  /**
   * Admitting any secret mutations, then any number of secret publications between steps of other
   * projects, then undoing the revision, gives back the secrets the project had, frees its lease and
   * that revision's reservations, and gives back the canonical configuration when the base was good.
   */
  lemma AdmitThenUndoIsIdentity(
    t: Tables, a: Admission, row: Option<OperationId>, steps: seq<Step>, owner: OperationId, fence: int)
    requires Inv(t) && AdmitError(t, a, row).None? && a.expectedRevision == t.projects[a.project].revision
    requires forall s | s in steps :: Quiet(s, a.project)
    requires Restore(Run(Admitted(t, a), steps), a.project, a.expectedRevision + 1, owner, fence).Committed?
    ensures var p := a.project;
      var undone := Restore(Run(Admitted(t, a), steps), p, a.expectedRevision + 1, owner, fence).tables;
      && undone.SecretsOf(p) == t.SecretsOf(p)
      && p !in undone.leases
      && (forall r | r in undone.reservations && undone.reservations[r].project == p ::
           undone.reservations[r].revision != a.expectedRevision + 1)
      && p in undone.projects && undone.projects[p].revision == t.projects[p].lastGood
      && (t.projects[p].revision == t.projects[p].lastGood ==>
           p in t.canonical && p in undone.canonical && undone.canonical[p] == t.canonical[p])
  {
    var p := a.project;
    AdmitFacts(t, a, row);
    AdmittedSnapshot(t, a);
    QuietRunKeepsSnapshots(Admitted(t, a), steps, p);
    var middle := Run(Admitted(t, a), steps);
    AdmitThenUndo(t, a, middle, owner, fence);
  }

  lemma AdmittedSnapshot(t: Tables, a: Admission)
    requires a.project in t.projects && a.expectedRevision == t.projects[a.project].revision && LedgerKept(t)
    ensures var after := Admitted(t, a);
      var next := Revision(a.project, a.expectedRevision + 1);
      var base := Revision(a.project, t.projects[a.project].lastGood);
      && a.project in after.projects
      && after.projects[a.project].revision == next.number
      && after.projects[a.project].lastGood == base.number
      && next in after.versions && after.versions[next] == t.SecretsOf(a.project)
      && next in after.markers && after.markers[next] == (t.SecretsOf(a.project) != map[])
      && base in t.aggregates && base in after.aggregates && after.aggregates[base] == t.aggregates[base]
  {
  }

  lemma AdmitThenUndo(t: Tables, a: Admission, middle: Tables, owner: OperationId, fence: int)
    requires Inv(t) && a.project in t.projects && a.expectedRevision == t.projects[a.project].revision
    requires SameSnapshots(Admitted(t, a), middle, a.project)
    requires Restore(middle, a.project, a.expectedRevision + 1, owner, fence).Committed?
    ensures var p := a.project;
      var undone := Restore(middle, p, a.expectedRevision + 1, owner, fence).tables;
      && undone.SecretsOf(p) == t.SecretsOf(p)
      && p !in undone.leases
      && (forall r | r in undone.reservations && undone.reservations[r].project == p ::
           undone.reservations[r].revision != a.expectedRevision + 1)
      && p in undone.projects && undone.projects[p].revision == t.projects[p].lastGood
      && (t.projects[p].revision == t.projects[p].lastGood ==>
           p in t.canonical && p in undone.canonical && undone.canonical[p] == t.canonical[p])
  {
    var p := a.project;
    hide Admitted, Undone, Redact, Redacted, PendingKept, PortsExclusive, KindsUnique, FencesBound;
    AdmittedSnapshot(t, a);
    UndoneProject(middle, p, owner);
    var base := t.aggregates[Revision(p, t.projects[p].lastGood)];
    RedactIsIdempotent(base);
  }
}
