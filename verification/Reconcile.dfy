/**
 * Reconcile: one complete configuration is rendered, staged, published and
 * applied to the running services, and undone when any step fails.
 *
 * A Compose call touches only the services it names; when it fails, what
 * happened to those is arbitrary.
 */
module Reconcile {
  import opened Common
  import opened RuntimeDisk
  import RG = RuntimeGenerations
  import opened ServiceLists

  /** Running services, each with the generation it was created from. */
  type Running = map<Service, Pointer>

  datatype Response = Response(
    revision: int, rolledBack: bool, runtimeChanged: bool, failed: bool, services: seq<Service>, recreated: seq<Service>)

  function FailureResponse(revision: int, rolledBack: bool, runtimeChanged: bool): Response {
    Response(revision, rolledBack, runtimeChanged, true, [], [])
  }

  datatype Metadata = Metadata(
    revision: int,
    fence: int,
    configuration: Configuration,
    enabledServices: seq<Service>,
    idempotency: map<string, Response>)

  /** `rendered` is what the renderer makes of the configuration, or nothing when it refuses. */
  datatype Rendering = Refused | Rendered(services: seq<Service>)

  datatype Request = Request(
    key: string,
    fence: int,
    nextRevision: int,
    expectedRevision: int,
    configuration: Configuration,
    rendering: Rendering)

  /** How the runtime part of a reconcile ended. */
  datatype Verdict = Fine | Failure(rolledBack: bool, runtimeChanged: bool)

  /** Two records agree on revision, configuration and services. */
  ghost predicate SameState(a: Metadata, b: Metadata) {
    a.revision == b.revision && a.configuration == b.configuration && a.enabledServices == b.enabledServices
  }

  /** What a successful reconcile stores. */
  ghost predicate Succeeded(before: Metadata, after: Metadata, r: Request)
    requires r.rendering.Rendered?
  {
    && after.revision > before.revision && after.revision >= r.nextRevision
    && (after.revision == before.revision + 1 || after.revision == r.nextRevision)
    && after.configuration == r.configuration.(revision := after.revision)
    && after.enabledServices == r.rendering.services
    && r.key in after.idempotency && after.idempotency == before.idempotency[r.key := after.idempotency[r.key]]
    && after.idempotency[r.key].revision == after.revision && after.idempotency[r.key].services == r.rendering.services
    && !after.idempotency[r.key].failed
    // The stored fence is the request's, even when a higher one was stored.
    && after.fence == if r.fence > 0 then r.fence else before.fence
  }

  ghost predicate OnlyTouched(a: Running, b: Running, names: set<Service>) {
    forall s: Service {:trigger SameAt(a, b, s)} :: s !in names ==> SameAt(a, b, s)
  }

  lemma TouchedTwice(a: Running, b: Running, c: Running, first: set<Service>, second: set<Service>)
    requires OnlyTouched(a, b, first) && OnlyTouched(b, c, second)
    ensures OnlyTouched(a, c, first + second)
  {
    forall s: Service | s !in first + second ensures SameAt(a, c, s) {
      assert SameAt(a, b, s) && SameAt(b, c, s);
    }
  }

  /** The services that ran before: the stored list, or what the stored configuration enables. */
  function PreviousServices(m: Metadata): seq<Service> {
    if m.enabledServices == [] && m.revision > 0 then EnabledServices(m.configuration) else m.enabledServices
  }

  /** A stored list counts; a record without one falls back on its switches once it has a revision. */
  lemma PreviousServicesIff(m: Metadata)
    ensures m.enabledServices != [] || m.revision <= 0 ==> PreviousServices(m) == m.enabledServices
    ensures m.enabledServices == [] && m.revision > 0 ==>
      var s, list := m.configuration.services, PreviousServices(m);
      && (Db in list <==> s.database) && (ApiGateway in list <==> s.gateway) && (Auth in list <==> s.auth) && (Rest in list <==> s.rest)
      && (Studio in list <==> s.studio) && (Realtime in list <==> s.realtime) && (Storage in list <==> s.storage)
      && (Functions in list <==> s.functions) && (Supavisor in list <==> s.supavisor)
  {
    hide EnabledServices;
    EnabledIff(m.configuration);
  }

  /** Exactly the given services run, each as before or from the given generation. */
  ghost predicate BackTo(before: Running, after: Running, services: seq<Service>, generation: Pointer) {
    && after.Keys == Elements(services)
    && forall s :: s in after ==> after[s] == generation || (s in before && after[s] == before[s])
  }

  /** Three groups cover what a forward run may disturb, and undoing them ends where it began. */
  lemma UndoCovers(before: Running, mid: Running, cleaned: Running, after: Running,
                   previous: set<Service>, next: set<Service>, affected: set<Service>, redone: set<Service>, generation: Pointer)
    requires before.Keys == previous
    requires OnlyTouched(before, mid, (previous - next) + (affected * next) + (next - previous))
    requires OnlyTouched(mid, cleaned, next - previous) && forall s :: s in next - previous ==> s !in cleaned
    requires redone == (affected + (previous - next)) * previous
    requires OnlyTouched(cleaned, after, redone) && forall s :: s in redone ==> s in after && after[s] == generation
    ensures after.Keys == previous
    ensures forall s :: s in after ==> after[s] == generation || (s in before && after[s] == before[s])
  {
    forall s: Service
      ensures s in after <==> s in previous
      ensures s in after ==> after[s] == generation || (s in before && after[s] == before[s])
    {
      if s !in redone {
        assert SameAt(cleaned, after, s);
        if s in next - previous {
          assert s !in cleaned;
        } else {
          assert SameAt(mid, cleaned, s) && SameAt(before, mid, s);
        }
      }
    }
  }

  /** What one reconcile decided after staging its candidate. */
  datatype Attempt = Attempt(
    handle: nat,
    stamp: Name,
    entry: Pointer,
    previous: seq<Service>,
    next: seq<Service>,
    added: seq<Service>,
    disabled: seq<Service>,
    affected: seq<Service>)
  {
    ghost predicate Valid() {
      && Elements(added) == Elements(next) - Elements(previous)
      && Elements(disabled) == Elements(previous) - Elements(next)
    }

    /** What applying the candidate may disturb. */
    ghost function Reach(): set<Service> {
      Elements(disabled) + Elements(affected) * Elements(next) + Elements(added)
    }
  }

  /** The new services run; the affected and the added ones from the new generation, the rest as before. */
  ghost predicate Applied(before: Running, after: Running, a: Attempt) {
    && after.Keys == Elements(a.next)
    && forall s :: s in after ==>
         if s in a.affected || s in a.added then after[s] == To(a.stamp)
         else s in before && after[s] == before[s]
  }

  /** What runs after a reconcile that succeeded. */
  ghost predicate RunsNew(before: Running, after: Running, m: Metadata, r: Request, clock: Name)
    requires r.rendering.Rendered?
  {
    var previous, next := PreviousServices(m), r.rendering.services;
    if m.revision == 0 && previous == [] then
      after.Keys == Elements(next) + {Db} && forall s :: s in after ==> after[s] == To(clock)
    else before.Keys == Elements(previous) ==>
      && after.Keys == Elements(next)
      && forall s :: s in after ==>
           if s in Affected(m.configuration, r.configuration) || s !in previous then after[s] == To(clock)
           else s in before && after[s] == before[s]
  }

  lemma AppliedRunsNew(before: Running, after: Running, m: Metadata, r: Request, a: Attempt)
    requires r.rendering.Rendered? && a.Valid()
    requires a.previous == PreviousServices(m) && a.next == r.rendering.services
    requires a.affected == Affected(m.configuration, r.configuration)
    requires !(m.revision == 0 && a.previous == [])
    requires before.Keys == Elements(a.previous) ==> Applied(before, after, a)
    ensures RunsNew(before, after, m, r, a.stamp)
  {
  }

  lemma FirstRunsNew(before: Running, after: Running, m: Metadata, r: Request, clock: Name)
    requires r.rendering.Rendered? && m.revision == 0 && PreviousServices(m) == []
    requires after.Keys == Elements(r.rendering.services) + {Db} && forall s :: s in after ==> after[s] == To(clock)
    ensures RunsNew(before, after, m, r, clock)
  {
  }

  /**
   * A reconcile that succeeds with nothing compared changed, such as a new
   * Supabase version alone, leaves every service as it was.
   */
  lemma UncomparedChangeRunsOld(before: Running, after: Running, m: Metadata, r: Request, clock: Name)
    requires r.rendering.Rendered? && RunsNew(before, after, m, r, clock)
    requires PreviousServices(m) == r.rendering.services != [] && before.Keys == Elements(PreviousServices(m))
    requires SameCompared(m.configuration, r.configuration)
    ensures after == before
  {
    UntouchedIff(m.configuration, r.configuration);
    KeptNone(RESTART_ORDER);
    forall s | s in after ensures s in before && after[s] == before[s] {
      assert s in Elements(PreviousServices(m)) && s in PreviousServices(m);
    }
  }

  lemma ApplyReaches(before: Running, removed: Running, recreated: Running, after: Running, a: Attempt)
    requires a.Valid() && before.Keys == Elements(a.previous)
    requires OnlyTouched(before, removed, Elements(a.disabled)) && forall s :: s in a.disabled ==> s !in removed
    requires OnlyTouched(removed, recreated, Elements(a.affected) * Elements(a.next))
    requires forall s :: s in a.affected && s in a.next ==> s in recreated && recreated[s] == To(a.stamp)
    requires OnlyTouched(recreated, after, Elements(a.added))
    requires forall s :: s in a.added ==> s in after && after[s] == To(a.stamp)
    ensures Applied(before, after, a)
  {
    forall s: Service
      ensures s in after <==> s in Elements(a.next)
      ensures s in after && (s in a.affected || s in a.added) ==> after[s] == To(a.stamp)
      ensures s in after && s !in a.affected && s !in a.added ==> s in before && after[s] == before[s]
    {
      assert s in a.added <==> s in Elements(a.added);
      assert s in a.disabled <==> s in Elements(a.disabled);
      if s !in a.added {
        assert SameAt(recreated, after, s);
        if !(s in a.affected && s in a.next) {
          assert SameAt(removed, recreated, s);
          if s !in a.disabled {
            assert SameAt(before, removed, s);
          }
        }
      }
    }
  }

  class Backend {
    const root: RG.RuntimeRoot<seq<Service>>
    /** Whether writing project.json, and whether every other external call, always works. */
    const recordable: bool
    const dependable: bool
    var running: Running
    /** project.json. */
    var durable: Metadata

    constructor (runtime: RG.RuntimeRoot<seq<Service>>, services: Running, record: Metadata, recordable: bool, dependable: bool)
      requires runtime.Valid() && runtime.handles == []
      ensures root == runtime && running == services && durable == record && Idle()
      ensures this.recordable == recordable && this.dependable == dependable
    {
      this.recordable, this.dependable := recordable, dependable;
      root, running, durable := runtime, services, record;
    }

    ghost predicate Idle()
      reads this, root
    {
      root.Valid() && root.handles == []
    }

    /** No external call fails. */
    ghost predicate Reliable() {
      recordable && dependable && root.reliable
    }

    /** Whether an external call works this time. */
    method Works() returns (ok: bool)
      ensures dependable ==> ok
    {
      var lucky: bool := *;
      ok := dependable || lucky;
    }

    method WriteMetadata(m: Metadata) returns (ok: bool)
      modifies this`durable
      ensures durable == if ok then m else old(durable)
      ensures recordable ==> ok
    {
      var lucky: bool := *;
      ok := recordable || lucky;
      if ok {
        durable := m;
      }
    }

    /** compose rm */
    method RemoveServices(names: seq<Service>) returns (ok: bool)
      modifies this`running
      ensures OnlyTouched(old(running), running, Elements(names))
      ensures ok ==> forall s :: s in names ==> s !in running
      ensures names == [] ==> running == old(running)
      ensures dependable ==> ok
    {
      if names == [] {
        return true;
      }
      ok := Works();
      var others := running - Elements(names);
      var left: Running := *;
      running := if ok then others else others + (map s | s in left && s in names :: left[s]);
    }

    /** compose up, with or without recreation */
    method StartServices(generation: Pointer, names: seq<Service>) returns (ok: bool)
      modifies this`running
      ensures OnlyTouched(old(running), running, Elements(names))
      ensures ok ==> forall s :: s in names ==> s in running && running[s] == generation
      ensures names == [] ==> ok && running == old(running)
      ensures dependable ==> ok
    {
      if names == [] {
        return true;
      }
      ok := Works();
      var others := running - Elements(names);
      var left: Running := *;
      running := others + if ok then map s | s in Elements(names) :: generation
                          else map s | s in left && s in names :: left[s];
    }

    /** compose down */
    method Down() returns (ok: bool)
      modifies this`running
      ensures (ok ==> running == map[]) && (dependable ==> ok)
    {
      ok := Works();
      running := *;
      if ok {
        running := map[];
      }
    }

    /** The restore closure, if it succeeds, ends at the pointer the request found, unless the commit stranded it. */
    ghost predicate Undoable(a: Attempt, stranded: bool)
      reads this, root
    {
      && root.Valid() && a.Valid()
      && a.handle < |root.handles|
      && var h := root.handles[a.handle];
      && h.name == a.stamp
      && (h.committed ==> h.previous == a.entry && (h.restored ==> root.disk.current == a.entry))
      && (!h.committed ==> root.disk.current == if stranded then To(a.stamp) else a.entry)
      && (stranded ==> !h.committed && h.published && !h.restored)
    }

    /** First half of a rollback: what the candidate added goes away while it is still selected. */
    method RemoveCandidate(a: Attempt) returns (ok: bool)
      requires a.Valid()
      modifies this`running
      ensures a.previous != [] ==> OnlyTouched(old(running), running, Elements(a.added))
      ensures ok ==> if a.previous == [] then running == map[] else forall s :: s in a.added ==> s !in running
    {
      if a.previous == [] {
        ok := Down();
        var database := Works();
        var configuration := Works();
        ok := ok && database && configuration;
      } else if a.added != [] {
        ok := RemoveServices(a.added);
      } else {
        ok := true;
      }
    }

    /** Second half: the previous generation is selected again and its services come back. */
    method ReviveServices(a: Attempt) returns (ok: bool)
      requires a.Valid()
      modifies this`running
      ensures OnlyTouched(old(running), running, Redone(a))
      ensures ok ==> forall s :: s in Redone(a) ==> s in running && running[s] == a.entry
    {
      var all := Unique(a.affected + a.disabled);
      var services := Intersect(all, a.previous);
      assert Elements(a.affected + a.disabled) == Elements(a.affected) + Elements(a.disabled);
      assert forall s :: s in services <==> s in Elements(services);
      ok := true;
      if a.previous != [] && services != [] {
        ok := StartServices(a.entry, services);
      }
      if ok && services != [] {
        ok := Works();
      }
    }

    /** The rollback closure. */
    method Rollback(a: Attempt, published: bool, proxyChanged: bool, ghost before: Running, ghost stranded: bool) returns (ok: bool)
      requires Undoable(a, stranded) && a.entry != To(a.stamp)
      requires published ==> root.handles[a.handle].committed
      requires published && a.previous != [] ==> OnlyTouched(before, running, a.Reach())
      requires !published ==> running == before
      modifies root, this`running
      ensures root.Valid()
      ensures !published ==> running == old(running)
      // The pointer is back, or it is stranded on the generation just removed.
      ensures ok && !stranded ==> root.disk.current == a.entry
      ensures ok && stranded ==> root.disk.current == To(a.stamp) && root.disk.Generation(a.stamp) == Missing
      ensures ok && before.Keys == Elements(a.previous) ==> BackTo(before, running, a.previous, a.entry)
    {
      ghost var mid := running;
      var cleaned := true;
      if published {
        cleaned := RemoveCandidate(a);
      }
      ghost var swept := running;
      var err := root.Restore(a.handle);
      if err != RG.NoError {
        return false;
      }
      if !published {
        return true;
      }
      ok := ReviveServices(a);
      if !cleaned || !ok {
        return false;
      }
      if before.Keys == Elements(a.previous) {
        if a.previous == [] {
          assert Redone(a) == {};
          NothingRuns(swept, running);
        } else {
          UndoCovers(before, mid, swept, running, Elements(a.previous), Elements(a.next), Elements(a.affected), Redone(a), a.entry);
        }
      }
      if proxyChanged {
        ok := Works();
      }
    }

    /** Applies the published candidate to the running services. */
    method Apply(a: Attempt, first: bool) returns (ok: bool)
      requires a.Valid() && (first ==> a.previous == [])
      modifies this`running
      ensures a.previous != [] ==> OnlyTouched(old(running), running, a.Reach())
      ensures dependable ==> ok
      ensures ok && !first && old(running).Keys == Elements(a.previous) ==> Applied(old(running), running, a)
      ensures ok && first ==>
        running.Keys == Elements(a.next) + {Db} && forall s :: s in running ==> running[s] == To(a.stamp)
    {
      ok := RemoveServices(a.disabled);
      if !ok {
        return;
      }
      if first {
        ok := Bootstrap(a);
        return;
      }
      ghost var removed := running;
      var affected := Intersect(a.affected, a.next);
      ok := StartServices(To(a.stamp), affected);
      ghost var recreated := running;
      TouchedTwice(old(running), removed, recreated, Elements(a.disabled), Elements(affected));
      if !ok {
        return;
      }
      assert forall s :: s in affected <==> s in Elements(affected);
      ok := StartServices(To(a.stamp), a.added);
      TouchedTwice(old(running), recreated, running, Elements(a.disabled) + Elements(affected), Elements(a.added));
      if ok && old(running).Keys == Elements(a.previous) {
        ApplyReaches(old(running), removed, recreated, running, a);
      }
    }

    /** The first start of a server: PostgreSQL from an empty data directory, then the rest. */
    method Bootstrap(a: Attempt) returns (ok: bool)
      modifies this`running
      ensures ok ==> running.Keys == Elements(a.next) + {Db} && forall s :: s in running ==> running[s] == To(a.stamp)
      ensures dependable ==> ok
    {
      ok := Down();
      if !ok {
        return;
      }
      var data := Works();
      var configuration := Works();
      if !data || !configuration {
        return false;
      }
      ok := StartServices(To(a.stamp), [Db]);
      if !ok {
        return;
      }
      var verified := Works();
      var synchronized := Works();
      if !verified || !synchronized {
        return false;
      }
      ghost var database := running;
      var dependent := Without(a.next, Db);
      ok := StartServices(To(a.stamp), dependent);
      if ok {
        forall s: Service
          ensures s in running <==> s in Elements(a.next) + {Db}
          ensures s in running ==> running[s] == To(a.stamp)
        {
          assert s in dependent <==> s in Elements(dependent);
          assert s !in dependent ==> SameAt(database, running, s);
          assert s != Db ==> SameAt(map[], database, s);
        }
      }
    }

    /** Stages the candidate and decides what changes. */
    method Prepare(r: Request, m: Metadata, clock: Name) returns (ok: bool, a: Attempt)
      requires Idle() && root.Fresh(clock) && r.rendering.Rendered?
      modifies root
      ensures root.Valid() && root.disk == old(root.disk) && (root.reliable ==> ok)
      ensures ok ==>
        && Undoable(a, false) && !root.handles[a.handle].committed && !root.handles[a.handle].restored
        && a.entry == root.disk.current && a.stamp == clock
        && a.previous == PreviousServices(m) && a.next == r.rendering.services
        && a.affected == Affected(m.configuration, r.configuration)
        && root.Candidate(clock) == Complete(a.next)
    {
      var previous, next := PreviousServices(m), r.rendering.services;
      var handle: nat;
      ok, handle := root.Stage(clock, next);
      var disabled := Difference(previous, next);
      var added := Difference(next, previous);
      var affected := AffectedServices(m.configuration, r.configuration);
      a := Attempt(handle, clock, root.disk.current, previous, next, added, disabled, affected);
    }

    /** The part of the callback that changes the runtime. */
    method Run(r: Request, m: Metadata, clock: Name) returns (v: Verdict, a: Attempt, proxyChanged: bool, commit: RG.Error)
      requires Idle() && root.Fresh(clock)
      modifies root, this`running
      ensures root.Valid()
      ensures v.Fine? ==>
        && r.rendering.Rendered?
        && Undoable(a, false) && root.handles[a.handle].committed
        && a.entry == old(root.disk.current) && a.stamp == clock
        && a.previous == PreviousServices(m) && a.next == r.rendering.services
        && root.disk.current == To(clock) && root.disk.Generation(clock) == Complete(a.next)
        && (a.previous != [] ==> OnlyTouched(old(running), running, a.Reach()))
        && RunsNew(old(running), running, m, r, clock)
      ensures v.Fine? ==> commit == RG.NoError && a.affected == Affected(m.configuration, r.configuration)
      ensures Reliable() && r.rendering.Rendered? ==> v.Fine?
      ensures v.Failure? && !v.runtimeChanged ==> running == old(running)
      ensures commit == RG.Stranded ==> !root.movable
      ensures v.Failure? && v.rolledBack ==> RolledBack(old(running), old(root.disk.current), m, clock, commit)
    {
      hide RG.Rest, RG.AllSafe, RG.Tidy, RG.Shed, RG.Moved, RG.After, Affected, PreviousServices, BackTo, RunsNew, Applied, OnlyTouched;
      proxyChanged, commit := false, RG.NoError;
      a := Attempt(0, clock, root.disk.current, [], [], [], [], []);
      if r.rendering.Refused? {
        return Failure(false, false), a, false, commit;
      }
      var staged: bool;
      staged, a := Prepare(r, m, clock);
      if !staged {
        return Failure(false, false), a, false, commit;
      }
      var valid := Works();
      if !valid {
        var undone := Rollback(a, false, false, running, false);
        return Failure(undone, false), a, false, commit;
      }
      commit := root.Commit(a.handle);
      if commit != RG.NoError {
        var undone := Rollback(a, false, false, running, commit == RG.Stranded);
        return Failure(undone, false), a, false, commit;
      }
      ghost var before := running;
      var applied := Apply(a, m.revision == 0 && a.previous == []);
      if !applied {
        var undone := Rollback(a, true, false, before, false);
        return Failure(undone, true), a, false, commit;
      }
      var healthy := Works();
      var routed := Works();
      if !healthy || !routed {
        var undone := Rollback(a, true, false, before, false);
        return Failure(undone, true), a, false, commit;
      }
      if m.revision == 0 && a.previous == [] {
        FirstRunsNew(before, running, m, r, clock);
      } else {
        AppliedRunsNew(before, running, m, r, a);
      }
      proxyChanged := *;
      v := Fine;
    }

    /**
     * The previous services run as before or from the previous generation, and
     * that is selected again exactly unless the commit failed to move the
     * pointer back; then `current` names a generation that is gone.
     */
    ghost predicate RolledBack(before: Running, entry: Pointer, m: Metadata, clock: Name, commit: RG.Error)
      reads this, root
    {
      && (root.disk.current == entry <==> commit != RG.Stranded)
      && (commit == RG.Stranded ==> root.disk.current == To(clock) && root.disk.Generation(clock) == Missing)
      && (before.Keys == Elements(PreviousServices(m)) ==> BackTo(before, running, PreviousServices(m), entry))
    }

    /** One reconcile request, from its metadata lock to its response, and how its commit ended if it came to one. */
    method Reconcile(r: Request, clock: Name) returns (reply: Response, commit: RG.Error)
      requires Idle() && root.Fresh(clock)
      modifies this, root
      ensures Idle()
      // Replaying a key issues no Compose call and moves nothing.
      ensures r.key in old(durable).idempotency ==>
        && running == old(running) && root.disk == old(root.disk) && durable == old(durable)
        && (old(durable).idempotency[r.key].failed ==> reply == old(durable).idempotency[r.key])
        && (reply.failed || reply == old(durable).idempotency[r.key].(revision := durable.revision))
        && (recordable && !old(durable).idempotency[r.key].failed ==> !reply.failed)
      // Where nothing fails, a request that renders succeeds; where writes work, every answer is kept.
      ensures Reliable() && r.key !in old(durable).idempotency && r.rendering.Rendered? ==> !reply.failed
      ensures recordable ==> r.key in durable.idempotency
      // A failure that changed nothing says so.
      ensures r.key !in old(durable).idempotency && reply.failed ==>
        && reply.services == [] && reply.recreated == [] && reply.revision in {old(durable).revision, r.expectedRevision}
        && (recordable ==> reply.revision == old(durable).revision)
        && (!reply.runtimeChanged ==> running == old(running))
      // A success names the services it recreated, and they run from the new generation.
      ensures r.key !in old(durable).idempotency && !reply.failed ==>
        && !reply.rolledBack && reply.revision == durable.revision
        && (forall s :: s in reply.recreated <==> s in Affected(old(durable).configuration, r.configuration) && s in reply.services)
        && (old(running).Keys == Elements(PreviousServices(old(durable))) ==>
              forall s :: s in reply.recreated ==> s in running && running[s] == To(clock))
      // A failed call never changes the stored revision, configuration or services.
      ensures reply.failed ==> SameState(durable, old(durable))
      // What a failed call stores is the answer its replay gets.
      ensures r.key !in old(durable).idempotency && r.key in durable.idempotency ==> durable.idempotency[r.key] == reply
      // A call that reports a rollback has undone its work on the runtime.
      ensures r.key !in old(durable).idempotency && reply.rolledBack ==>
        reply.failed && RolledBack(old(running), old(root.disk.current), old(durable), clock, commit)
      // In particular the pointer is back whenever moving it back works.
      ensures commit == RG.Stranded ==> !root.movable
      ensures r.key !in old(durable).idempotency && reply.rolledBack && root.movable ==> root.disk.current == old(root.disk.current)
      // A call that succeeds has done all of it.
      ensures r.key !in old(durable).idempotency && !reply.failed ==>
        && r.rendering.Rendered?
        && Succeeded(old(durable), durable, r)
        && root.disk.current == To(clock) && root.disk.Generation(clock) == Complete(r.rendering.services)
        && RunsNew(old(running), running, old(durable), r, clock)
    {
      var m := durable;
      if r.key in m.idempotency {
        var stored := m.idempotency[r.key];
        var rewritten := WriteMetadata(m);
        return if stored.failed then stored
               else if rewritten then stored.(revision := m.revision)
               else FailureResponse(r.expectedRevision, false, false), RG.NoError;
      }
      if r.fence > 0 && m.fence < r.fence {
        m := m.(fence := r.fence);
        var claimed := WriteMetadata(m);
        if !claimed {
          var _ := WriteMetadata(m);
          return FailureResponse(r.expectedRevision, false, false), RG.NoError;
        }
      }
      reply, commit := ReconcileFresh(r, m, clock);
      root.Forget();
    }

    /** A request with a new key, its fence claimed. */
    method ReconcileFresh(r: Request, m: Metadata, clock: Name) returns (reply: Response, commit: RG.Error)
      requires Idle() && root.Fresh(clock)
      requires SameState(m, durable) && r.key !in m.idempotency
      modifies this, root
      ensures root.Valid() && (commit == RG.Stranded ==> !root.movable)
      ensures reply.failed ==> SameState(durable, m)
      ensures reply.failed ==> durable.idempotency in {old(durable).idempotency, m.idempotency[r.key := reply]}
      ensures Reliable() && r.rendering.Rendered? ==> !reply.failed
      ensures recordable ==> r.key in durable.idempotency
      ensures reply.failed ==>
        && reply.services == [] && reply.recreated == [] && reply.revision in {m.revision, r.expectedRevision}
        && (recordable ==> reply.revision == m.revision)
        && (!reply.runtimeChanged ==> running == old(running))
      ensures !reply.failed ==>
        && reply.revision == durable.revision && !reply.rolledBack && reply.services == durable.enabledServices
        && r.key in durable.idempotency && durable.idempotency[r.key] == reply
        && (forall s :: s in reply.recreated <==> s in Affected(m.configuration, r.configuration) && s in reply.services)
      ensures reply.rolledBack ==> reply.failed && RolledBack(old(running), old(root.disk.current), m, clock, commit)
      ensures !reply.failed ==>
        && r.rendering.Rendered?
        && Succeeded(m, durable, r)
        && root.disk.current == To(clock) && root.disk.Generation(clock) == Complete(r.rendering.services)
        && RunsNew(old(running), running, m, r, clock)
    {
      hide RG.Rest, RG.AllSafe, RG.Tidy, RG.Shed, Affected, PreviousServices, BackTo, RunsNew, OnlyTouched, Undoable;
      ghost var before := running;
      var v, a, proxyChanged;
      v, a, proxyChanged, commit := Run(r, m, clock);
      if v.Failure? {
        reply := FailureResponse(m.revision, v.rolledBack, v.runtimeChanged);
        var _ := WriteMetadata(m.(idempotency := m.idempotency[r.key := reply]));
        return;
      }
      var revision := if r.nextRevision > m.revision + 1 then r.nextRevision else m.revision + 1;
      var recreated := Intersect(a.affected, a.next);
      assert forall s :: s in recreated <==> s in Elements(recreated);
      reply := Response(revision, false, false, false, a.next, recreated);
      var written := WriteMetadata(Metadata(
        revision,
        if r.fence > 0 then r.fence else m.fence,
        r.configuration.(revision := revision),
        a.next,
        m.idempotency[r.key := reply]));
      if !written {
        var undone := Rollback(a, true, proxyChanged, before, false);
        reply := FailureResponse(r.expectedRevision, undone, true);
      }
    }
  }

  /** The previous services a rollback recreates. */
  ghost function Redone(a: Attempt): set<Service> {
    (Elements(a.affected) + Elements(a.disabled)) * Elements(a.previous)
  }

  lemma NothingRuns(before: Running, after: Running)
    requires before == map[] && OnlyTouched(before, after, {})
    ensures after == map[]
  {
    forall s: Service ensures s !in after {
      assert SameAt(before, after, s);
    }
  }
}
