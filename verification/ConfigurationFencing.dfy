/** Lease fencing and domain ownership across whole runs of configuration transactions. */
module ConfigurationFencing {
  import opened Common
  import opened Configuration
  import opened ConfigurationTables
  import opened ConfigurationInvariants
  import opened ConfigurationRuns

  // ---------------------------------------------------------------------------------------------
  // Fences
  // ---------------------------------------------------------------------------------------------

  /** The step that can hand the lease of a project to a new holder, and the time at which it looks. */
  predicate Takes(s: Step, p: ProjectId, owner: OperationId, now: int) {
    || (s.Admitting? && s.admission.project == p && s.admission.owner == owner && s.admission.now == now)
    || (s.Acquiring? && s.project == p && s.owner == owner && s.now == now)
  }

  lemma AdmittedLease(t: Tables, a: Admission)
    requires a.project in t.projects
    ensures Admitted(t, a).leases == t.leases[a.project := Lease(a.owner, NextFence(t, a.project), a.now + Lifetime(a))]
    ensures forall o | o in t.operations :: o in Admitted(t, a).operations
  {
  }

  /**
   * While a lease row exists, only an expired lease changes hands, and every change of hands raises
   * the fence by one.
   */
  lemma TakeoverNeedsExpiryAndRaisesFence(t: Tables, s: Step, p: ProjectId)
    requires p in t.leases && p in Apply(t, s).leases
    ensures var before, after := t.leases[p], Apply(t, s).leases[p];
      || (after.owner == before.owner && after.fence == before.fence)
      || (after.fence == before.fence + 1 && exists now :: before.expires <= now && Takes(s, p, after.owner, now))
  {
    if s.Admitting? {
      AdmittingTakesLease(t, s.admission, s.row, p);
    } else if s.Renewing? || s.Releasing? || s.Acquiring? {
      LeaseStepTakesLease(t, s, p);
    } else {
      hide Apply;
      if s.MarkingGood? || s.Restoring? || s.Persisting? {
        PublicationKeepsLeases(t, s);
      } else {
        RecordStepsKeepLeases(t, s);
      }
    }
  }

  lemma AdmittingTakesLease(t: Tables, a: Admission, row: Option<OperationId>, p: ProjectId)
    requires p in t.leases && p in Apply(t, Admitting(a, row)).leases
    ensures var before, after := t.leases[p], Apply(t, Admitting(a, row)).leases[p];
      || (after.owner == before.owner && after.fence == before.fence)
      || (after.fence == before.fence + 1 && exists now :: before.expires <= now && Takes(Admitting(a, row), p, after.owner, now))
  {
    hide AdmitError, Admitted, Unheld;
    if AdmitError(t, a, row).None? {
      AdmitFacts(t, a, row);
      AdmittedLease(t, a);
      if a.project == p {
        assert Takes(Admitting(a, row), p, a.owner, a.now);
      }
    }
  }

  lemma LeaseStepTakesLease(t: Tables, s: Step, p: ProjectId)
    requires (s.Renewing? || s.Releasing? || s.Acquiring?) && p in t.leases && p in Apply(t, s).leases
    ensures var before, after := t.leases[p], Apply(t, s).leases[p];
      || (after.owner == before.owner && after.fence == before.fence)
      || (after.fence == before.fence + 1 && exists now :: before.expires <= now && Takes(s, p, after.owner, now))
  {
    hide OwnerError, Blank;
    match s
    case Renewing(_, _, _, _, _) =>
    case Releasing(_, _, _) =>
    case Acquiring(q, owner, operation, now, ttl) => assert q == p ==> Takes(s, p, owner, now);
  }

  lemma RecordStepsKeepLeases(t: Tables, s: Step)
    requires s.Publishing? || s.SettingStatus? || s.SettingPhase? || s.Reserving? || s.Creating?
    ensures Apply(t, s).leases == t.leases
    ensures forall o | o in t.operations :: o in Apply(t, s).operations
  {
  }

  lemma ProjectKeepsLeases(t: Tables, p: ProjectId, c: Config)
    requires p in t.projects && Project(t, p, c).Some?
    ensures Project(t, p, c).value.leases == t.leases && Project(t, p, c).value.operations == t.operations
  {
  }

  lemma MarkedGoodKeepsLeases(t: Tables, p: ProjectId, owner: OperationId, phase: string)
    requires p in t.projects && Revision(p, t.projects[p].revision) in t.aggregates && MarkedGood(t, p, owner, phase).Some?
    ensures MarkedGood(t, p, owner, phase).value.leases == t.leases
    ensures forall o | o in t.operations :: o in MarkedGood(t, p, owner, phase).value.operations
  {
    hide Project, WithoutReservationsAt;
    ProjectKeepsLeases(t, p, t.aggregates[Revision(p, t.projects[p].revision)]);
  }

  lemma UndoneKeepsLeases(t: Tables, p: ProjectId, owner: OperationId)
    requires p in t.projects && Revision(p, t.projects[p].lastGood) in t.aggregates
    requires Revision(p, t.projects[p].revision) in t.markers && Undone(t, p, owner).Some?
    ensures Undone(t, p, owner).value.leases == t.leases - {p}
    ensures forall o | o in t.operations :: o in Undone(t, p, owner).value.operations
  {
    hide Project, WithoutReservationsAt;
    ProjectKeepsLeases(t, p, t.aggregates[Revision(p, t.projects[p].lastGood)]);
  }

  lemma PersistKeepsLeases(t: Tables, p: ProjectId, c: Config)
    requires PersistAllocated(t, p, c).Committed?
    ensures var after := PersistAllocated(t, p, c).tables; after.leases == t.leases && after.operations == t.operations
  {
    hide Project, Redact;
    var at := Revision(p, t.projects[p].revision);
    var staged := t.(aggregates := t.aggregates[at := Redact(c).(revision := at.number)]);
    ProjectKeepsLeases(staged, p, c.(revision := at.number));
  }

  /** A publication, an undo or an installation gives nobody a lease and forgets no operation. */
  lemma PublicationKeepsLeases(t: Tables, s: Step)
    requires s.MarkingGood? || s.Restoring? || s.Persisting?
    ensures forall p | p in Apply(t, s).leases :: p in t.leases && Apply(t, s).leases[p] == t.leases[p]
    ensures forall o | o in t.operations :: o in Apply(t, s).operations
  {
    hide MarkedGood, Undone, PersistAllocated, OwnerError, Owns, Bound;
    match s
    case MarkingGood(p, revision, owner, fence, phase) =>
      if MarkGood(t, p, revision, owner, fence, phase).Committed? {
        MarkedGoodKeepsLeases(t, p, owner, phase);
      }
    case Restoring(p, revision, owner, fence) =>
      if Restore(t, p, revision, owner, fence).Committed? && t.projects[p].revision == revision {
        UndoneKeepsLeases(t, p, owner);
      }
    case Persisting(p, c) =>
      if PersistAllocated(t, p, c).Committed? {
        PersistKeepsLeases(t, p, c);
      }
  }

  /** Operation o does not hold the lease of project p, and its identifier is taken. */
  ghost predicate FencedOut(t: Tables, p: ProjectId, o: OperationId) {
    o in t.operations && (p in t.leases ==> t.leases[p].owner != o)
  }

  lemma StepKeepsFencedOut(t: Tables, s: Step, p: ProjectId, o: OperationId)
    requires FencedOut(t, p, o) && !(s.Acquiring? && s.project == p && s.owner == o)
    ensures FencedOut(Apply(t, s), p, o)
  {
    if s.Admitting? {
      hide AdmitError, Admitted, Unheld;
      if AdmitError(t, s.admission, s.row).None? {
        AdmitFacts(t, s.admission, s.row);
        AdmittedLease(t, s.admission);
      }
    } else if s.Renewing? || s.Releasing? || s.Acquiring? {
      hide OwnerError, Blank;
      match s
      case Renewing(_, _, _, _, _) =>
      case Releasing(_, _, _) =>
      case Acquiring(_, _, _, _, _) =>
    } else {
      hide Apply;
      if s.MarkingGood? || s.Restoring? || s.Persisting? {
        PublicationKeepsLeases(t, s);
      } else {
        RecordStepsKeepLeases(t, s);
      }
    }
  }

  /** Without the lease, neither publication nor undo changes anything, whatever fence it presents. */
  lemma FencedOutChangesNothing(t: Tables, p: ProjectId, o: OperationId, revision: int, fence: int, phase: string)
    requires FencedOut(t, p, o)
    ensures Apply(t, MarkingGood(p, revision, o, fence, phase)) == t
    ensures Apply(t, Restoring(p, revision, o, fence)) == t
  {
  }

  /**
   * Once another operation holds the lease, the former owner's publications and undos change nothing
   * in any later state, until it acquires the lease again.
   */
  lemma {:induction false} FormerOwnerStaysFencedOut(t: Tables, steps: seq<Step>, p: ProjectId, o: OperationId)
    requires FencedOut(t, p, o)
    requires forall s | s in steps :: !(s.Acquiring? && s.project == p && s.owner == o)
    ensures var after := Run(t, steps);
      forall revision, fence, phase ::
        && Apply(after, MarkingGood(p, revision, o, fence, phase)) == after
        && Apply(after, Restoring(p, revision, o, fence)) == after
    decreases |steps|
  {
    hide Apply;
    if steps == [] {
      forall revision, fence, phase
        ensures Apply(t, MarkingGood(p, revision, o, fence, phase)) == t && Apply(t, Restoring(p, revision, o, fence)) == t
      {
        FencedOutChangesNothing(t, p, o, revision, fence, phase);
      }
    } else {
      StepKeepsFencedOut(t, steps[0], p, o);
      FormerOwnerStaysFencedOut(Apply(t, steps[0]), steps[1..], p, o);
    }
  }

  /** After any run from the empty database, every lease holder runs the payload that carries the lease's fence. */
  lemma HolderCarriesTheFence(steps: seq<Step>, p: ProjectId)
    requires DisciplinedRun(EMPTY, steps) && p in Run(EMPTY, steps).leases
    ensures var t := Run(EMPTY, steps);
      && t.leases[p].fence >= 1
      && t.leases[p].owner in t.payloads
      && t.payloads[t.leases[p].owner].project == p
      && t.payloads[t.leases[p].owner].fence == t.leases[p].fence
  {
    assert Inv(EMPTY);
    RunKeepsInv(EMPTY, steps);
    hide Run, DisciplinedRun;
  }

  /** A project's lease row is there before and after every step of a run. */
  ghost predicate HeldThroughout(t: Tables, steps: seq<Step>, p: ProjectId)
    decreases |steps|
  {
    p in t.leases && (steps != [] ==> HeldThroughout(Apply(t, steps[0]), steps[1..], p))
  }

  /** One operation has it under one fence before and after every step. */
  ghost predicate OwnedThroughout(t: Tables, steps: seq<Step>, p: ProjectId, o: OperationId, fence: int)
    decreases |steps|
  {
    Owns(t, p, o, fence) && (steps != [] ==> OwnedThroughout(Apply(t, steps[0]), steps[1..], p, o, fence))
  }

  /** While the row is never deleted the fence never falls. */
  lemma {:induction false} FenceNeverFalls(t: Tables, steps: seq<Step>, p: ProjectId)
    requires HeldThroughout(t, steps, p)
    ensures p in Run(t, steps).leases && Run(t, steps).leases[p].fence >= t.leases[p].fence
    decreases |steps|
  {
    hide Apply;
    if steps != [] {
      assert HeldThroughout(Apply(t, steps[0]), steps[1..], p);
      TakeoverNeedsExpiryAndRaisesFence(t, steps[0], p);
      FenceNeverFalls(Apply(t, steps[0]), steps[1..], p);
    }
  }

  /**
   * An operation that holds the lease under the same fence at both ends of a run held it all the way
   * exactly when the row was never deleted: a fence is handed out a second time only after a deletion.
   */
  lemma {:induction false} FenceRepeatsIff(t: Tables, steps: seq<Step>, p: ProjectId, o: OperationId, fence: int)
    requires Owns(t, p, o, fence) && Owns(Run(t, steps), p, o, fence)
    ensures OwnedThroughout(t, steps, p, o, fence) <==> HeldThroughout(t, steps, p)
    decreases |steps|
  {
    hide Apply;
    if steps != [] {
      var next := Apply(t, steps[0]);
      if HeldThroughout(t, steps, p) {
        assert HeldThroughout(next, steps[1..], p);
        TakeoverNeedsExpiryAndRaisesFence(t, steps[0], p);
        FenceNeverFalls(next, steps[1..], p);
      }
      if Owns(next, p, o, fence) {
        FenceRepeatsIff(next, steps[1..], p, o, fence);
      }
    }
  }

  /** The smallest such run: a release deletes the row, and the next acquisition starts again at fence 1. */
  lemma ReleaseRepeatsFence(t: Tables, p: ProjectId, o: OperationId, first: int, second: int, ttl: int)
    requires p !in t.leases && o in t.payloads && t.payloads[o].project == p && !Blank(o.text)
    ensures
      var once := Apply(t, Acquiring(p, o, o, first, ttl));
      var gone := Apply(once, Releasing(p, o, 1));
      && Owns(once, p, o, 1) && p !in gone.leases
      && Owns(Apply(gone, Acquiring(p, o, o, second, ttl)), p, o, 1)
  {
    assert o.text != "";
  }

  // ---------------------------------------------------------------------------------------------
  // Domains
  // ---------------------------------------------------------------------------------------------

  /** No domain belongs to two projects, or to one project while another has it reserved. */
  ghost predicate DomainsExclusive(projects: map<ProjectId, ProjectRow>, reservations: map<Resource, Reservation>) {
    && Domain("") !in reservations
    && (forall p, q | p in projects && q in projects && projects[p].domain == projects[q].domain :: p == q)
    && (forall p | p in projects && Domain(projects[p].domain) in reservations :: reservations[Domain(projects[p].domain)].project == p)
  }

  lemma UnheldDomain(t: Tables, p: ProjectId, c: Config)
    requires Unheld(t, p, c)
    ensures forall name | Domain(name) in Resources(c) :: name != "" && forall q | q in t.projects && q != p :: t.projects[q].domain != name
  {
  }

  lemma AdmittingKeepsDomains(t: Tables, a: Admission)
    requires a.project in t.projects && Unheld(t, a.project, a.configuration)
    requires DomainsExclusive(t.projects, t.reservations) && a.expectedRevision == t.projects[a.project].revision
    ensures DomainsExclusive(Admitted(t, a).projects, Admitted(t, a).reservations)
  {
    hide Admitted, Resources, Unheld, Redacted, ReservedFor;
    AdmittedReservations(t, a);
    AdmittedShape(t, a);
    UnheldDomain(t, a.project, a.configuration);
  }

  lemma PublishedDomain(t: Tables, p: ProjectId)
    requires Inv(t) && Installed(t, p) && DomainsExclusive(t.projects, t.reservations)
    ensures Revision(p, t.projects[p].revision) in t.aggregates
    ensures var name := t.aggregates[Revision(p, t.projects[p].revision)].domain;
      Domain(name) in t.reservations ==> t.reservations[Domain(name)].project == p
  {
    hide PortEntries, Redacted, PortsExclusive, KindsUnique, FencesBound;
    var c := t.aggregates[Revision(p, t.projects[p].revision)];
    assert Pending(t.projects[p], p, t.aggregates, t.reservations);
    assert c.domain != "" ==> Domain(c.domain) in Resources(c);
  }

  lemma ProjectedDomainIsFree(t: Tables, p: ProjectId, c: Config)
    requires p in t.projects && Project(t, p, c).Some?
    ensures forall q | q in t.projects && q != p :: t.projects[q].domain != c.domain
  {
  }

  lemma MarkedGoodIsProjected(t: Tables, p: ProjectId, owner: OperationId, phase: string)
    requires p in t.projects && Revision(p, t.projects[p].revision) in t.aggregates && MarkedGood(t, p, owner, phase).Some?
    ensures Project(t, p, t.aggregates[Revision(p, t.projects[p].revision)]).Some?
  {
  }

  lemma MovingKeepsDomains(
    projects: map<ProjectId, ProjectRow>, reservations: map<Resource, Reservation>, p: ProjectId, row: ProjectRow, fewer: map<Resource, Reservation>)
    requires DomainsExclusive(projects, reservations) && p in projects
    requires forall q | q in projects && q != p :: projects[q].domain != row.domain
    requires Domain(row.domain) in reservations ==> reservations[Domain(row.domain)].project == p
    requires forall r | r in fewer :: r in reservations && fewer[r] == reservations[r]
    ensures DomainsExclusive(projects[p := row], fewer)
  {
  }

  /** The domain a project publishes was reserved for it, or already its own. */
  lemma MarkingGoodKeepsDomains(t: Tables, p: ProjectId, owner: OperationId, phase: string)
    requires Inv(t) && Installed(t, p) && MarkedGood(t, p, owner, phase).Some? && DomainsExclusive(t.projects, t.reservations)
    ensures DomainsExclusive(MarkedGood(t, p, owner, phase).value.projects, MarkedGood(t, p, owner, phase).value.reservations)
  {
    hide Inv, Installed, MarkedGood, Project, DomainsExclusive, FreeOfOthers, Projected, Stored, PortsExclusive, KindsUnique, LedgerKept;
    InstalledParts(t, p);
    PublishedDomain(t, p);
    MarkedGoodIsProjected(t, p, owner, phase);
    ProjectedDomainIsFree(t, p, t.aggregates[Revision(p, t.projects[p].revision)]);
    InvParts(t);
    OwnConfigurationsAreFree(t, p);
    MarkedGoodShape(t, p, owner, phase);
    var after := MarkedGood(t, p, owner, phase).value;
    MovingKeepsDomains(t.projects, t.reservations, p, after.projects[p], after.reservations);
  }

  lemma UndoingKeepsDomains(t: Tables, p: ProjectId, owner: OperationId)
    requires Inv(t) && Installed(t, p) && DomainsExclusive(t.projects, t.reservations)
    requires Revision(p, t.projects[p].revision) in t.markers && Undone(t, p, owner).Some?
    ensures DomainsExclusive(Undone(t, p, owner).value.projects, Undone(t, p, owner).value.reservations)
  {
    hide PortEntries, Resources, Redacted, Undone, PendingKept;
    OwnConfigurationsAreFree(t, p);
    UndoneShape(t, p, owner);
  }

  /** Creation checks published domains only: it keeps domains exclusive exactly when none is pending on its own. */
  lemma CreatingKeepsDomainsIff(t: Tables, p: ProjectId, c: Config, secrets: map<string, Envelope>)
    requires DomainsExclusive(t.projects, t.reservations) && Create(t, p, c, secrets).Committed?
    requires forall r | r in t.reservations :: t.reservations[r].project in t.projects
    ensures DomainsExclusive(Create(t, p, c, secrets).tables.projects, Create(t, p, c, secrets).tables.reservations)
            <==> Domain(c.domain) !in t.reservations
  {
    hide Redact;
    assert Create(t, p, c, secrets).tables.projects[p].domain == c.domain;
  }

  /** A step that creates no project under a domain another project has pending. */
  ghost predicate RespectsPendingDomains(t: Tables, s: Step) {
    s.Creating? ==> Domain(s.configuration.domain) !in t.reservations
  }

  lemma RowsAndReservationsUntouched(t: Tables, s: Step)
    requires s.Renewing? || s.Releasing? || s.Acquiring? || s.Publishing? || s.SettingStatus? || s.SettingPhase? || s.Reserving?
    ensures Apply(t, s).projects == t.projects && Apply(t, s).reservations == t.reservations
  {
  }

  lemma PublishingStepKeepsDomains(t: Tables, s: Step)
    requires Inv(t) && DomainsExclusive(t.projects, t.reservations) && Disciplined(t, s) && (s.MarkingGood? || s.Restoring?)
    ensures DomainsExclusive(Apply(t, s).projects, Apply(t, s).reservations)
  {
    hide Inv, Installed, DomainsExclusive, MarkedGood, Undone;
    match s
    case MarkingGood(p, revision, owner, fence, phase) =>
      if MarkGood(t, p, revision, owner, fence, phase).Committed? {
        MarkingGoodKeepsDomains(t, p, owner, phase);
      }
    case Restoring(p, revision, owner, fence) =>
      if Restore(t, p, revision, owner, fence).Committed? && t.projects[p].revision == revision {
        UndoingKeepsDomains(t, p, owner);
      }
  }

  lemma CreatedRow(t: Tables, p: ProjectId, c: Config, secrets: map<string, Envelope>)
    requires Create(t, p, c, secrets).Committed?
    ensures var after := Create(t, p, c, secrets).tables;
      && p !in t.projects && (forall q | q in t.projects :: t.projects[q].domain != c.domain)
      && after.projects.Keys == t.projects.Keys + {p} && after.projects[p].domain == c.domain
      && (forall q | q in t.projects :: after.projects[q] == t.projects[q])
      && after.reservations == t.reservations
  {
    hide Redact;
  }

  lemma CreatingStepKeepsDomains(t: Tables, p: ProjectId, c: Config, secrets: map<string, Envelope>)
    requires DomainsExclusive(t.projects, t.reservations) && Domain(c.domain) !in t.reservations
    ensures var after := Apply(t, Creating(p, c, secrets)); DomainsExclusive(after.projects, after.reservations)
  {
    hide Create;
    if Create(t, p, c, secrets).Committed? {
      CreatedRow(t, p, c, secrets);
    }
  }

  lemma PersistingStepKeepsDomains(t: Tables, p: ProjectId, c: Config)
    requires DomainsExclusive(t.projects, t.reservations) && (p in t.projects ==> t.projects[p].domain == c.domain)
    ensures var after := Apply(t, Persisting(p, c)); DomainsExclusive(after.projects, after.reservations)
  {
    hide PersistAllocated, DomainsExclusive, Redact, Redacted;
    if PersistAllocated(t, p, c).Committed? {
      PersistShape(t, p, c);
      assert t.projects[p := t.projects[p].(domain := c.domain)] == t.projects;
    }
  }

  lemma StepKeepsDomains(t: Tables, s: Step)
    requires Inv(t) && DomainsExclusive(t.projects, t.reservations) && Disciplined(t, s) && RespectsPendingDomains(t, s)
    ensures DomainsExclusive(Apply(t, s).projects, Apply(t, s).reservations)
  {
    match s
    case Admitting(a, row) =>
      hide Inv, AdmitError, Admitted, Unheld, DomainsExclusive;
      if AdmitError(t, a, row).None? {
        AdmitFacts(t, a, row);
        AdmittingKeepsDomains(t, a);
      }
    case MarkingGood(_, _, _, _, _) => hide Apply, Inv, Disciplined, DomainsExclusive; PublishingStepKeepsDomains(t, s);
    case Restoring(_, _, _, _) => hide Apply, Inv, Disciplined, DomainsExclusive; PublishingStepKeepsDomains(t, s);
    case Creating(p, c, secrets) => hide Apply, Inv; CreatingStepKeepsDomains(t, p, c, secrets);
    case Persisting(p, c) => hide Apply, Inv, OwnsPorts; PersistingStepKeepsDomains(t, p, c);
    case _ => hide Apply, Inv, DomainsExclusive, Disciplined; RowsAndReservationsUntouched(t, s);
  }

  ghost predicate RespectfulRun(t: Tables, steps: seq<Step>)
    decreases |steps|
  {
    steps != [] ==>
      Disciplined(t, steps[0]) && RespectsPendingDomains(t, steps[0]) && RespectfulRun(Apply(t, steps[0]), steps[1..])
  }

  /** In every such run no domain is published by one project while another publishes it or has it pending. */
  lemma {:induction false} RunKeepsDomains(t: Tables, steps: seq<Step>)
    requires Inv(t) && DomainsExclusive(t.projects, t.reservations) && RespectfulRun(t, steps)
    ensures DomainsExclusive(Run(t, steps).projects, Run(t, steps).reservations)
    decreases |steps|
  {
    if steps != [] {
      hide Inv, Apply, Disciplined, DomainsExclusive, RespectsPendingDomains;
      StepKeepsInv(t, steps[0]);
      StepKeepsDomains(t, steps[0]);
      RunKeepsDomains(Apply(t, steps[0]), steps[1..]);
    }
  }
}
