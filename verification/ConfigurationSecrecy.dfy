/**
 * Secret inputs in the stored configurations: the store keeps one exactly when
 * a caller hands it a configuration with a Studio password still in it.
 */
module ConfigurationSecrecy {
  import opened Common
  import opened Configuration
  import opened ConfigurationTables
  import opened ConfigurationRuns

  /** No stored configuration carries a secret input. */
  ghost predicate Clean(t: Tables) {
    && (forall r | r in t.aggregates :: SecretFree(t.aggregates[r]))
    && (forall p | p in t.canonical :: SecretFree(t.canonical[p]))
    && (forall o | o in t.payloads :: SecretFree(t.payloads[o].config))
  }

  /** The configuration a step hands to the store. */
  function Given(s: Step): Option<Config> {
    match s
    case Admitting(a, _) => Some(a.configuration)
    case Creating(_, c, _) => Some(c)
    case Persisting(_, c) => Some(c)
    case _ => None
  }

  /** The Studio password was taken out before the store saw the configuration. */
  ghost predicate Stripped(s: Step) {
    Given(s).Some? ==> Given(s).value.studioPassword == NO_SECRET
  }

  lemma StoredIff(c: Config, revision: int)
    ensures SecretFree(Redact(c).(revision := revision)) <==> c.studioPassword == NO_SECRET
    ensures SecretFree(c) ==> SecretFree(Redact(c))
  {
    RedactedIgnoresRevision(Redact(c), revision);
  }

  /** What admission writes where configurations are kept. */
  lemma AdmittedConfigurations(t: Tables, a: Admission)
    requires a.project in t.projects
    ensures
      var next := t.projects[a.project].revision + 1;
      var stored, after := Redact(a.configuration).(revision := next), Admitted(t, a);
      && after.aggregates == t.aggregates[Revision(a.project, next) := stored]
      && after.canonical == t.canonical[a.project := stored]
      && a.operation in after.payloads && after.payloads == t.payloads[a.operation := after.payloads[a.operation]]
      && after.payloads[a.operation].config == stored
  {
    hide Redact, Resources, ApplyMutations;
  }

  lemma AdmittingIff(t: Tables, a: Admission)
    requires Clean(t) && a.project in t.projects
    ensures Clean(Admitted(t, a)) <==> a.configuration.studioPassword == NO_SECRET
  {
    hide Admitted, Redact, SecretFree;
    AdmittedConfigurations(t, a);
    StoredIff(a.configuration, t.projects[a.project].revision + 1);
  }

  lemma CreatingIff(t: Tables, p: ProjectId, c: Config, secrets: map<string, Envelope>)
    requires Clean(t) && Create(t, p, c, secrets).Committed?
    ensures Clean(Create(t, p, c, secrets).tables) <==> c.studioPassword == NO_SECRET
  {
    hide Redact, SecretFree;
    StoredIff(c, 1);
    assert Create(t, p, c, secrets).tables.canonical[p] == Redact(c).(revision := 1);
  }

  lemma PersistingIff(t: Tables, p: ProjectId, c: Config)
    requires Clean(t) && PersistAllocated(t, p, c).Committed?
    ensures Clean(PersistAllocated(t, p, c).tables) <==> c.studioPassword == NO_SECRET
  {
    PersistShape(t, p, c);
    hide PersistAllocated, Redact, SecretFree;
    StoredIff(c, t.projects[p].revision);
    assert PersistAllocated(t, p, c).tables.canonical[p] == Redact(c).(revision := t.projects[p].revision);
  }

  lemma ProjectingKeepsClean(t: Tables, p: ProjectId, c: Config)
    requires Clean(t) && SecretFree(c) && p in t.projects && Project(t, p, c).Some?
    ensures Clean(Project(t, p, c).value)
  {
    hide ProjectPorts, PortEntries, Redact, SecretFree;
    StoredIff(c, 0);
  }

  /** Publication and undo only move what is stored already. */
  lemma MarkedGoodKeepsClean(t: Tables, p: ProjectId, owner: OperationId, phase: string)
    requires Clean(t) && p in t.projects && Revision(p, t.projects[p].revision) in t.aggregates
    requires MarkedGood(t, p, owner, phase).Some?
    ensures Clean(MarkedGood(t, p, owner, phase).value)
  {
    hide Project, SecretFree;
    ProjectingKeepsClean(t, p, t.aggregates[Revision(p, t.projects[p].revision)]);
  }

  lemma UndoneKeepsClean(t: Tables, p: ProjectId, owner: OperationId)
    requires Clean(t) && p in t.projects && Revision(p, t.projects[p].lastGood) in t.aggregates
    requires Revision(p, t.projects[p].revision) in t.markers && Undone(t, p, owner).Some?
    ensures Clean(Undone(t, p, owner).value)
  {
    hide Project, SecretFree;
    ProjectingKeepsClean(t, p, t.aggregates[Revision(p, t.projects[p].lastGood)]);
  }

  lemma MovingKeepsClean(t: Tables, s: Step)
    requires Clean(t) && (s.MarkingGood? || s.Restoring?)
    ensures Clean(Apply(t, s))
  {
    hide Clean, MarkedGood, Undone;
    if Apply(t, s) != t {
      match s
      case MarkingGood(p, revision, owner, fence, phase) => MarkedGoodKeepsClean(t, p, owner, phase);
      case Restoring(p, revision, owner, fence) => UndoneKeepsClean(t, p, owner);
    }
  }

  lemma OthersKeepClean(t: Tables, s: Step)
    requires Clean(t) && (s.Renewing? || s.Releasing? || s.Acquiring? || s.Publishing? || s.Reserving? || s.SettingStatus? || s.SettingPhase?)
    ensures Clean(Apply(t, s))
  {
    hide SecretFree, ClaimPorts, OwnerError;
  }

  lemma AdmittedOnProject(t: Tables, a: Admission, row: Option<OperationId>)
    requires AdmitError(t, a, row).None?
    ensures a.project in t.projects
  {
  }

  /** A committed step that hands over a configuration keeps the store free of secrets exactly when it was stripped. */
  lemma StoringIff(t: Tables, s: Step)
    requires Clean(t) && Given(s).Some? && Attempt(t, s).Committed?
    ensures Clean(Apply(t, s)) <==> Stripped(s)
  {
    hide Clean, Admitted, AdmitError, Create, PersistAllocated;
    match s
    case Admitting(a, row) =>
      AdmittedOnProject(t, a, row);
      AdmittingIff(t, a);
    case Creating(p, c, secrets) => CreatingIff(t, p, c, secrets);
    case Persisting(p, c) => PersistingIff(t, p, c);
  }

  lemma StepKeepsClean(t: Tables, s: Step)
    requires Clean(t) && Stripped(s)
    ensures Clean(Apply(t, s))
  {
    hide Clean, Attempt;
    if Given(s).Some? {
      if Attempt(t, s).Committed? {
        StoringIff(t, s);
      }
    } else if s.MarkingGood? || s.Restoring? {
      MovingKeepsClean(t, s);
    } else {
      OthersKeepClean(t, s);
    }
  }

  /** In every run that hands over stripped configurations no stored one ever carries a secret input. */
  lemma {:induction false} RunKeepsClean(t: Tables, steps: seq<Step>)
    requires Clean(t) && forall s | s in steps :: Stripped(s)
    ensures Clean(Run(t, steps))
    decreases |steps|
  {
    if steps != [] {
      hide Clean, Stripped, Apply, Attempt;
      StepKeepsClean(t, steps[0]);
      RunKeepsClean(Apply(t, steps[0]), steps[1..]);
    }
  }
}
