/**
 * Rotation of a server's database password: PostgreSQL, the selected runtime
 * generation, the dependent services and the durable metadata record change
 * together, and every external call may fail.
 *
 * A metadata write that fails leaves the stored record alone, because the
 * rename that publishes it is its last operation.  A failed role change leaves
 * the password arbitrary, and a failed recreate leaves the services arbitrary.
 */
module PasswordRotation {
  import opened Common
  import opened RuntimeDisk
  import RG = RuntimeGenerations

  /** What a runtime generation says about the database. */
  datatype Files = Files(password: string)

  /** A generation named in the journal; without a current link its directory is called "current". */
  datatype JournalName = Unset | CurrentLink | Generation(name: Name)

  datatype Phase = Prepared | RuntimePublished | DatabaseRotated | ServicesVerified | ProvisionerCommitted

  datatype Journal = Journal(
    operation: string,
    phase: Phase,
    oldGeneration: JournalName,
    newGeneration: JournalName,
    expectedRevision: int,
    nextRevision: int)

  datatype Configuration = Configuration(supabaseVersion: string, revision: int, services: seq<string>)

  datatype Response = Response(
    operation: string,
    project: string,
    revision: int,
    rolledBack: bool,
    runtimeChanged: bool,
    outcomeUnknown: bool,
    failed: bool)

  const NO_RESPONSE := Response("", "", 0, false, false, false, false)

  datatype Metadata = Metadata(
    project: string,
    revision: int,
    fence: int,
    configuration: Configuration,
    enabledServices: seq<string>,
    rotation: Option<Journal>,
    idempotency: map<string, Response>)

  datatype Request = Request(
    kind: string,
    operation: string,
    key: string,
    project: string,
    expectedRevision: int,
    nextRevision: int,
    oldPassword: string,
    newPassword: string,
    configuration: Configuration,
    secretPassword: string,
    fence: int)

  /** What the metadata callback returns. */
  datatype Verdict =
    | Fine
    | Stale
    | Invalid
    | Plain
    | Failure(rolledBack: bool, runtimeChanged: bool, unknown: bool)
    | Panic

  /** What a caller sees. */
  datatype Error = NoError | StaleRevision | InvalidRevision | Failed(rolledBack: bool) | Panicked

  const ROTATE := "ROTATE_DATABASE_PASSWORD"
  const ROLLBACK := "ROLLBACK_DATABASE_PASSWORD"

  function FailureResponse(r: Request, v: Verdict): Response
    requires v.Failure?
  {
    Response(r.operation, r.project, r.expectedRevision, v.rolledBack, v.runtimeChanged, v.unknown, true)
  }

  function SuccessResponse(r: Request): Response {
    Response(r.operation, r.project, r.nextRevision, false, false, false, false)
  }

  /** The record and the stored result the callback leaves. */
  function Concluded(r: Request, v: Verdict, m: Metadata): Metadata {
    if v == Fine then
      m.(revision := r.nextRevision,
         fence := if r.fence > 0 then r.fence else m.fence,
         configuration := r.configuration,
         enabledServices := r.configuration.services,
         idempotency := m.idempotency[r.key := SuccessResponse(r)])
    else if v.Failure? && !v.unknown then m.(idempotency := m.idempotency[r.key := FailureResponse(r, v)])
    else m
  }

  class Backend {
    const root: RG.RuntimeRoot<Files>
    /** Whether writing project.json, and whether every other external call, always works. */
    const recordable: bool
    const dependable: bool
    /** The password PostgreSQL accepts. */
    var password: string
    /** The generation the dependent services were created from. */
    var consumers: Pointer
    /** project.json. */
    var durable: Metadata

    /** Variables the request's closures share. */
    var handle: Option<nat>
    var compensating: bool
    /** `current` when the request began, which oldRef names. */
    var entry: Pointer
    /** The name the request's candidate gets. */
    var stamp: Name

    constructor (runtime: RG.RuntimeRoot<Files>, secret: string, record: Metadata, recordable: bool, dependable: bool)
      requires runtime.Valid() && runtime.handles == []
      ensures root == runtime && password == secret && durable == record && Idle()
      ensures this.recordable == recordable && this.dependable == dependable
    {
      this.recordable, this.dependable := recordable, dependable;
      root, password, consumers, durable := runtime, secret, runtime.disk.current, record;
      handle, compensating, entry, stamp := None, false, runtime.disk.current, 0;
    }

    ghost predicate Idle()
      reads this, root
    {
      root.Valid() && root.handles == []
    }

    /** No external call fails. */
    ghost predicate Reliable() {
      recordable && dependable && root.reliable
    }

    /** Whether an external call works this time. */
    method Works() returns (ok: bool)
      ensures dependable ==> ok
    {
      var lucky: bool := *;
      ok := dependable || lucky;
    }

    /** restoreRuntime, if it succeeds, ends at the pointer the request found. */
    ghost predicate Undoable()
      reads this, root
    {
      && root.Valid()
      && (handle.None? ==> root.disk.current == entry)
      && (handle.Some? ==>
            && handle.value < |root.handles|
            && root.handles[handle.value].committed
            && root.handles[handle.value].name == stamp
            && root.handles[handle.value].previous == entry
            && (root.handles[handle.value].restored ==> root.disk.current == entry))
    }

    /** The password in the generation `current` names. */
    ghost function SelectedPassword(): Option<string>
      reads this, root
    {
      PasswordOf(root.disk, root.disk.current)
    }

    method WriteMetadata(m: Metadata) returns (ok: bool)
      modifies this`durable
      ensures durable == if ok then m else old(durable)
      ensures recordable ==> ok
    {
      var lucky: bool := *;
      ok := recordable || lucky;
      if ok {
        durable := m;
      }
    }

    method SetRolePasswords(secret: string) returns (ok: bool)
      modifies this`password
      ensures (ok ==> password == secret) && (dependable ==> ok)
    {
      ok := Works();
      password := *;
      if ok {
        password := secret;
      }
    }

    method Recreate(generation: Pointer) returns (ok: bool)
      modifies this`consumers
      ensures (ok ==> consumers == generation) && (dependable ==> ok)
    {
      ok := Works();
      consumers := *;
      if ok {
        consumers := generation;
      }
    }

    method RestoreRuntime() returns (ok: bool)
      requires Undoable()
      modifies root
      ensures Undoable()
      ensures OthersKept(old(root.disk), root.disk, stamp)
      ensures ok ==> root.disk.current == entry
    {
      if handle.None? {
        return true;
      }
      var err := root.Restore(handle.value);
      ok := err == RG.NoError;
    }

    /** The rollback closure. */
    method Compensate(r: Request) returns (ok: bool)
      requires Undoable()
      modifies root, this`password, this`consumers
      ensures Undoable()
      ensures OthersKept(old(root.disk), root.disk, stamp)
      ensures ok ==> root.disk.current == entry && password == r.oldPassword && consumers == entry
    {
      ok := RestoreRuntime();
      if !ok {
        return;
      }
      ok := SetRolePasswords(r.oldPassword);
      if !ok {
        return;
      }
      ok := Recreate(entry);
      if !ok {
        return;
      }
      ok := Works();
    }

    /** The request opens its journal; nothing but metadata changes. */
    method Begin(r: Request, m0: Metadata) returns (v: Verdict, m: Metadata)
      requires Idle() && entry == root.disk.current && handle.None? && !compensating
      requires m0 == durable && r.key !in m0.idempotency
      modifies this`durable
      ensures m.revision == m0.revision == durable.revision
      ensures SameConfiguration(m, m0) && SameConfiguration(durable, m0)
      ensures m.idempotency == m0.idempotency == durable.idempotency && (r.fence <= 0 ==> m.fence == m0.fence)
      ensures v != Panic && (v.Failure? ==> v == Failure(false, false, false))
      ensures v == Fine || v.Failure? ==> Admissible(r, m0)
      ensures v == Fine ==>
        m.rotation == Some(Opened(r, entry)) && durable == m
      // The journal names the request and the generation to go back to.
      ensures v == Fine ==>
        var j := m.rotation.value;
        && j.operation == r.operation && j.phase == Prepared && j.newGeneration == Unset
        && j.oldGeneration == (if entry.To? then Generation(entry.name) else CurrentLink)
        && j.expectedRevision == r.expectedRevision && j.nextRevision == r.nextRevision
      ensures recordable && dependable && Admissible(r, m0) ==> v == Fine
    {
      m := m0;
      if r.kind != ROTATE {
        return Invalid, m;
      }
      if m.project != r.project {
        return Plain, m;
      }
      if r.fence > 0 && m.fence > r.fence {
        return Stale, m;
      }
      if m.revision != r.expectedRevision || r.nextRevision <= r.expectedRevision
         || r.oldPassword == "" || r.newPassword == "" || r.oldPassword == r.newPassword {
        return Invalid, m;
      }
      if r.fence > 0 && m.fence < r.fence {
        m := m.(fence := r.fence);
        var raised := WriteMetadata(m);
        if !raised {
          return Plain, m;
        }
      }
      var available := Works();
      var readable := Works();
      if !available {
        return Failure(false, false, false), m;
      }
      if !readable {
        return Plain, m;
      }
      m := m.(rotation := Some(Opened(r, entry)));
      var began := WriteMetadata(m);
      v := if began then Fine else Plain;
    }

    /** Stages and commits a generation rendered with the request's secrets. */
    method PublishRuntime(r: Request, m0: Metadata) returns (v: Verdict, m: Metadata)
      requires Idle() && root.Fresh(stamp) && entry == root.disk.current && handle.None?
      requires m0.rotation.Some? && r.configuration.supabaseVersion != ""
      modifies root, this`durable, this`handle
      ensures Undoable() || v != Fine
      ensures root.Valid() && OthersKept(old(root.disk), root.disk, stamp)
      ensures v == Fine || v == Panic || v.Failure?
      ensures v == Panic ==> root.disk == old(root.disk) && durable == old(durable)
      ensures durable == old(durable) || durable == m
      ensures m == m0 || (m.rotation.Some? && m == m0.(rotation := m.rotation) && m.rotation.value.operation == m0.rotation.value.operation
                          && m.rotation.value.oldGeneration == NameOf(entry) && m.rotation.value.nextRevision == m0.rotation.value.nextRevision)
      ensures m.rotation.Some?
      ensures v == Fine ==>
        && root.disk.current == To(stamp) && root.disk.Generation(stamp) == Complete(Files(r.secretPassword))
        && handle.Some? && !root.handles[handle.value].restored && m.rotation.value.newGeneration == Generation(stamp)
      ensures v.Failure? ==> !v.runtimeChanged && !v.unknown && (v.rolledBack ==> root.disk.current == entry)
      ensures Reliable() ==> v == Fine
    {
      hide RG.Rest, RG.AllSafe, RG.Tidy;
      m := m0;
      var rendered := Works();
      if !rendered {
        return Failure(false, false, false), m;
      }
      var staged, h := root.Stage(stamp, Files(r.secretPassword));
      if !staged {
        // The restore closure is nil here, and the source calls it.
        return Panic, m;
      }
      var validated := Works();
      if !validated {
        var _ := root.Restore(h);
        return Failure(false, false, false), m;
      }
      var err := root.Commit(h);
      if err != RG.NoError {
        var _ := root.Restore(h);
        return Failure(false, false, false), m;
      }
      handle := Some(h);
      var journal := m.rotation.value.(newGeneration := Generation(stamp), oldGeneration := NameOf(entry), phase := RuntimePublished);
      m := m.(rotation := Some(journal));
      var written := WriteMetadata(m);
      if written {
        return Fine, m;
      }
      var undone := RestoreRuntime();
      v := Failure(undone, false, false);
    }

    /** Everything the request may have changed outside metadata is as it was. */
    ghost predicate Undone(r: Request, consumers0: Pointer)
      reads this, root
    {
      root.disk.current == entry && password == r.oldPassword && consumers in {consumers0, entry}
    }

    /** PostgreSQL takes the new password, and the journal says so. */
    method ChangePassword(r: Request, m0: Metadata) returns (v: Verdict, m: Metadata)
      requires Undoable() && m0.rotation.Some?
      modifies root, this`durable, this`password
      ensures Undoable() && OthersKept(old(root.disk), root.disk, stamp)
      ensures m.rotation.Some? && m == m0.(rotation := Some(m0.rotation.value.(phase := m.rotation.value.phase)))
      ensures durable == old(durable) || durable == m
      ensures v == Fine || v.Failure?
      ensures v == Fine ==> password == r.newPassword && root.disk == old(root.disk)
      ensures v.Failure? ==> v.runtimeChanged && !v.unknown
      ensures recordable && dependable ==> v == Fine
      ensures v.Failure? && v.rolledBack ==> Undone(r, consumers)
    {
      m := m0;
      var changed := SetRolePasswords(r.newPassword);
      if !changed {
        var _ := RestoreRuntime();
        return Failure(false, true, false), m;
      }
      m := m.(rotation := Some(m.rotation.value.(phase := DatabaseRotated)));
      var written := WriteMetadata(m);
      if written {
        return Fine, m;
      }
      var reversed := SetRolePasswords(r.oldPassword);
      var undone := RestoreRuntime();
      v := Failure(reversed && undone, true, false);
    }

    /** Compensation followed by one more attempt to restore the runtime. */
    method CompensateTwice(r: Request) returns (ok: bool)
      requires Undoable()
      modifies root, this`password, this`consumers
      ensures Undoable() && OthersKept(old(root.disk), root.disk, stamp)
      ensures ok ==> Undone(r, entry)
    {
      var reversed := Compensate(r);
      var undone := RestoreRuntime();
      ok := reversed && undone;
    }

    /** The dependent services come back on the new runtime and the journal closes. */
    method VerifyServices(r: Request, m0: Metadata) returns (v: Verdict, m: Metadata)
      requires Undoable() && m0.rotation.Some? && password == r.newPassword
      modifies root, this`durable, this`password, this`consumers
      ensures Undoable() && OthersKept(old(root.disk), root.disk, stamp)
      ensures m.rotation.Some? && m == m0.(rotation := Some(m0.rotation.value.(phase := m.rotation.value.phase)))
      ensures v == Fine ==> m.rotation.value.phase == ProvisionerCommitted
      ensures durable == old(durable) || durable == m
        || durable == m.(rotation := Some(m.rotation.value.(phase := ServicesVerified)))
      ensures v == Fine || v == Plain || v.Failure?
      ensures v in {Fine, Plain} || (v.Failure? && v.unknown) ==>
        password == r.newPassword && root.disk == old(root.disk) && consumers == root.disk.current
      ensures v.Failure? ==> v.runtimeChanged && (v.unknown ==> !v.rolledBack)
      ensures recordable && dependable ==> v == Fine
      ensures v.Failure? && v.rolledBack ==> Undone(r, entry)
    {
      m := m0;
      var recreated := Recreate(root.disk.current);
      if !recreated {
        var undone := CompensateTwice(r);
        return Failure(undone, true, false), m;
      }
      var reachable: bool := *;
      var healthy := Works();
      if !healthy {
        if !reachable {
          return Failure(false, true, true), m;
        }
        var undone := CompensateTwice(r);
        return Failure(undone, true, false), m;
      }
      m := m.(rotation := Some(m.rotation.value.(phase := ServicesVerified)));
      var written := WriteMetadata(m);
      if !written {
        var undone := Compensate(r);
        return Failure(undone, true, false), m;
      }
      m := m.(rotation := Some(m.rotation.value.(phase := ProvisionerCommitted)));
      written := WriteMetadata(m);
      v := if written then Fine else Plain;
    }

    /** The part of the callback that moves the password: once the role is changed, a compensation exists. */
    method ChangeAndVerify(r: Request, m0: Metadata) returns (v: Verdict, m: Metadata)
      requires Undoable() && !compensating && m0.rotation.Some?
      modifies root, this`durable, this`password, this`consumers, this`compensating
      ensures Undoable() && OthersKept(old(root.disk), root.disk, stamp)
      ensures m.rotation.Some? && m == m0.(rotation := Some(m0.rotation.value.(phase := m.rotation.value.phase)))
      ensures durable == old(durable) || durable == m0.(rotation := durable.rotation)
      ensures v != Panic
      ensures v == Fine ==>
        && compensating && password == r.newPassword && consumers == root.disk.current
        && root.disk == old(root.disk) && m.rotation.value.phase == ProvisionerCommitted
      ensures recordable && dependable ==> v == Fine
      ensures v.Failure? ==> v.runtimeChanged
      ensures v.Failure? && v.unknown ==>
        !v.rolledBack && compensating && password == r.newPassword && consumers == root.disk.current
      ensures v.Failure? && v.rolledBack ==> Undone(r, old(consumers))
    {
      v, m := ChangePassword(r, m0);
      if v != Fine {
        return;
      }
      compensating := true;
      v, m := VerifyServices(r, m);
    }

    /** The callback for a request whose key has no stored result. */
    method Rotate(r: Request, m0: Metadata) returns (v: Verdict, m: Metadata)
      requires Idle() && root.Fresh(stamp) && entry == root.disk.current && handle.None? && !compensating
      requires m0 == durable && r.key !in m0.idempotency && password == r.oldPassword
      modifies root, this`durable, this`password, this`consumers, this`handle, this`compensating
      ensures root.Valid() && OthersKept(old(root.disk), root.disk, stamp)
      ensures compensating ==> Undoable()
      ensures compensating || v.Failure? ==> Admissible(r, m0)
      ensures !Admissible(r, m0) ==>
        v != Fine && password == old(password) && consumers == old(consumers) && root.disk == old(root.disk)
      ensures durable.revision == m0.revision && SameConfiguration(durable, m0) && durable.idempotency == m0.idempotency
      ensures m.revision == m0.revision && SameConfiguration(m, m0) && m.idempotency == m0.idempotency
      ensures r.fence <= 0 ==> m.fence == m0.fence
      ensures v == Fine ==>
        && compensating && Admissible(r, m0) && password == r.newPassword && consumers == root.disk.current
        && m.rotation.Some? && m.rotation.value.operation == r.operation
        && m.rotation.value.phase == ProvisionerCommitted
        && m.rotation.value.oldGeneration == NameOf(entry) && m.rotation.value.nextRevision == r.nextRevision
        && (if r.configuration.supabaseVersion == "" then root.disk.current == entry
            else root.disk.current == To(stamp) && root.disk.Generation(stamp) == Complete(Files(r.secretPassword))
                 && m.rotation.value.newGeneration == Generation(stamp))
      ensures v.Failure? && v.rolledBack ==> Undone(r, old(consumers))
      // Where nothing fails, an admissible request succeeds.
      ensures Reliable() && Admissible(r, m0) ==> v == Fine
      // What was not changed is as it was; after an unknown outcome everything is new.
      ensures v.Failure? && !v.runtimeChanged ==> !v.unknown && !compensating && password == old(password) && consumers == old(consumers)
      ensures v.Failure? && v.unknown ==> !v.rolledBack && password == r.newPassword && consumers == root.disk.current
      // A panic comes after the journal was opened and before anything else.
      ensures v == Panic ==>
        && !compensating && password == old(password) && consumers == old(consumers) && root.disk == old(root.disk)
        && durable.rotation == Some(Opened(r, entry))
    {
      hide RG.Rest, RG.AllSafe, RG.Tidy, Admissible, NameOf;
      v, m := Begin(r, m0);
      if v != Fine {
        return;
      }
      if r.configuration.supabaseVersion != "" {
        v, m := PublishRuntime(r, m);
        if v != Fine {
          return;
        }
      }
      v, m := ChangeAndVerify(r, m);
    }

    /** Stores the record the callback left; a failed write calls the compensation, if there is one. */
    method Publish(r: Request, v: Verdict, m: Metadata, stored: Response) returns (reply: Response, err: Error, written: bool)
      requires root.Valid() && (compensating ==> Undoable())
      modifies root, this`durable, this`password, this`consumers
      ensures root.Valid() && OthersKept(old(root.disk), root.disk, stamp)
      ensures durable == if written then m else old(durable)
      ensures written || !compensating ==>
        password == old(password) && consumers == old(consumers) && root.disk == old(root.disk)
      ensures written && v == Fine ==>
        reply == stored && err == if stored.failed then Failed(stored.rolledBack) else NoError
      ensures written && v.Failure? ==> reply == FailureResponse(r, v)
      ensures !written || v in {Stale, Invalid, Plain, Panic} ==> !reply.outcomeUnknown
      ensures written ==> v !in {Stale, Panic}
      ensures recordable && v !in {Stale, Panic} ==> written
      ensures written && v != Fine ==>
        (reply.rolledBack <==> v.Failure? && v.rolledBack) && err == if v == Invalid then InvalidRevision else Failed(reply.rolledBack)
      ensures !written ==>
        err == if v == Panic then Panicked else if v == Stale then StaleRevision else Failed(reply.rolledBack)
      // The compensation just undid the request.
      ensures !written && reply.rolledBack ==> compensating && err.Failed? && Undone(r, entry)
    {
      written := false;
      if v == Panic {
        return NO_RESPONSE, Panicked, false;
      }
      if v == Stale {
        return NO_RESPONSE, StaleRevision, false;
      }
      reply := Response(r.operation, r.project, r.expectedRevision, false, false, false, true);
      written := WriteMetadata(m);
      if !written {
        var undone := false;
        if compensating {
          undone := Compensate(r);
        }
        return reply.(rolledBack := undone, runtimeChanged := true), Failed(undone), false;
      }
      match v
      case Fine => return stored, if stored.failed then Failed(stored.rolledBack) else NoError, true;
      case Invalid => return NO_RESPONSE, InvalidRevision, true;
      case Plain => return reply, Failed(false), true;
      case Failure(rolledBack, _, _) => return FailureResponse(r, v), Failed(rolledBack), true;
    }

    /** Password, record, services and selected generation are the request's. */
    ghost predicate Rotated(r: Request, before: Metadata, found: Pointer, clock: Name, reply: Response)
      reads this, root
    {
      && Admissible(r, before)
      && password == r.newPassword && consumers == root.disk.current
      && durable.revision == reply.revision == r.nextRevision && reply.operation == r.operation && reply.project == r.project
      && durable.configuration == r.configuration && durable.project == r.project
      && durable.enabledServices == r.configuration.services
      && durable.fence == (if r.fence > 0 then r.fence else before.fence)
      && durable.idempotency == before.idempotency[r.key := reply] && !reply.rolledBack && !reply.failed
      && durable.rotation.Some? && durable.rotation.value.operation == r.operation
      && durable.rotation.value.phase == ProvisionerCommitted
      && durable.rotation.value.oldGeneration == NameOf(found)
      && durable.rotation.value.nextRevision == r.nextRevision
      && (if r.configuration.supabaseVersion == "" then root.disk.current == found
          else root.disk.current == To(clock) && SelectedPassword() == Some(r.secretPassword)
               && durable.rotation.value.newGeneration == Generation(clock))
    }

    /** A request whose key has no stored result: the callback, and the write of what it left. */
    method RotateFresh(r: Request) returns (reply: Response, err: Error, ghost verdict: Verdict, ghost saved: bool)
      requires Idle() && root.Fresh(stamp) && entry == root.disk.current && handle.None? && !compensating
      requires r.key !in durable.idempotency && password == r.oldPassword
      modifies root, this`durable, this`password, this`consumers, this`handle, this`compensating
      ensures root.Valid() && OthersKept(old(root.disk), root.disk, stamp)
      ensures !Admissible(r, old(durable)) ==>
        && err != NoError && !reply.rolledBack
        && password == old(password) && consumers == old(consumers) && root.disk == old(root.disk)
      ensures err == NoError ==> Rotated(r, old(durable), entry, stamp, reply)
      ensures reply.rolledBack ==>
        err == Failed(true) && Undone(r, old(consumers)) && durable.revision == r.expectedRevision
      ensures err == Panicked ==>
        && password == old(password) && consumers == old(consumers) && root.disk == old(root.disk)
        && durable.rotation == Some(Opened(r, entry)) && durable.idempotency == old(durable).idempotency
      ensures err != NoError ==> durable.revision == old(durable).revision && SameConfiguration(durable, old(durable))
      ensures err.Failed? ==> err.rolledBack == reply.rolledBack
      // A result is kept under the key exactly when it was saved and is known; an unknown one is not, so that a retry runs.
      ensures r.key in durable.idempotency <==> saved && (verdict == Fine || (verdict.Failure? && !verdict.unknown))
      ensures durable.idempotency == if r.key in durable.idempotency then old(durable).idempotency[r.key := reply] else old(durable).idempotency
      ensures verdict == Fine && saved <==> err == NoError
      ensures recordable && err !in {StaleRevision, Panicked} ==> saved
      ensures Reliable() && Admissible(r, old(durable)) ==> err == NoError
      ensures saved && verdict.Failure? ==>
        && reply == Response(r.operation, r.project, r.expectedRevision, verdict.rolledBack, verdict.runtimeChanged, verdict.unknown, true)
        && err == Failed(verdict.rolledBack)
      ensures reply.outcomeUnknown ==> saved && verdict.Failure? && verdict.unknown && password == r.newPassword && consumers == root.disk.current
      ensures saved && verdict.Failure? && !verdict.runtimeChanged ==> password == old(password) && consumers == old(consumers)
    {
      hide RG.Rest, RG.AllSafe, RG.Tidy, NameOf, Opened;
      var v, m := Rotate(r, durable);
      var written: bool;
      reply, err, written := Publish(r, v, Concluded(r, v, m), SuccessResponse(r));
      verdict, saved := v, written;
    }

    /** One rotation request, from its metadata lock to its response. */
    method RotateDatabasePassword(r: Request, clock: Name) returns (reply: Response, err: Error, ghost verdict: Verdict, ghost saved: bool)
      requires Idle() && root.Fresh(clock)
      // A fresh rotation is given the real password and finds no journal of its own.
      requires r.key !in durable.idempotency ==> password == r.oldPassword
      requires r.key !in durable.idempotency && durable.rotation.Some? ==> durable.rotation.value.operation != r.operation
      modifies this, root
      ensures Idle() && OthersKept(old(root.disk), root.disk, clock)
      // Replaying a key changes nothing, and reports what was stored.
      ensures r.kind == ROTATE && r.key in old(durable).idempotency ==>
        && password == old(password) && consumers == old(consumers)
        && root.disk == old(root.disk) && durable == old(durable)
        && (err == Failed(false)
            || (reply == old(durable).idempotency[r.key] && err == if reply.failed then Failed(reply.rolledBack) else NoError))
      // A request that is not admissible touches nothing but the stored record.
      ensures r.key !in old(durable).idempotency && !Admissible(r, old(durable)) ==>
        && err != NoError && !reply.rolledBack
        && password == old(password) && consumers == old(consumers) && root.disk == old(root.disk)
      // Where nothing fails, an admissible request succeeds; where writes work, only a stale request is not saved.
      ensures Reliable() && r.key !in old(durable).idempotency && Admissible(r, old(durable)) ==> err == NoError
      ensures recordable && err !in {StaleRevision, Panicked} ==> saved
      // No error: everything is new.
      ensures err == NoError && r.key !in old(durable).idempotency ==>
        Rotated(r, old(durable), old(root.disk.current), clock, reply)
      // Rolled back: everything is as before.
      ensures r.key !in old(durable).idempotency && reply.rolledBack ==>
        && err == Failed(true)
        && password == r.oldPassword && root.disk.current == old(root.disk.current)
        && consumers in {old(consumers), old(root.disk.current)}
        && durable.revision == r.expectedRevision
      // Staging failed: the opened journal stays, and nothing else has changed.
      ensures err == Panicked ==>
        && password == old(password) && consumers == old(consumers) && root.disk == old(root.disk)
        && durable.rotation == Some(Opened(r, old(root.disk.current))) && durable.idempotency == old(durable).idempotency
      // Any error: the durable revision and configuration are as before.
      ensures err != NoError ==> durable.revision == old(durable).revision && SameConfiguration(durable, old(durable))
      ensures r.key !in old(durable).idempotency && err.Failed? ==> err.rolledBack == reply.rolledBack
      // A result is kept under the key exactly when it was saved and is known; an unknown one is not, so that a retry runs.
      ensures r.key !in old(durable).idempotency ==>
        (r.key in durable.idempotency <==> saved && (verdict == Fine || (verdict.Failure? && !verdict.unknown)))
      ensures r.key !in old(durable).idempotency ==>
        durable.idempotency == if r.key in durable.idempotency then old(durable).idempotency[r.key := reply] else old(durable).idempotency
      ensures r.kind == ROTATE && r.key !in old(durable).idempotency ==> (verdict == Fine && saved <==> err == NoError)
      ensures r.key !in old(durable).idempotency && saved && verdict.Failure? ==>
        && reply == Response(r.operation, r.project, r.expectedRevision, verdict.rolledBack, verdict.runtimeChanged, verdict.unknown, true)
        && err == Failed(verdict.rolledBack)
        && (!verdict.runtimeChanged ==> password == old(password) && consumers == old(consumers))
      // An unknown outcome leaves the new password and runtime in place.
      ensures r.key !in old(durable).idempotency && reply.outcomeUnknown ==>
        saved && verdict.Failure? && verdict.unknown && password == r.newPassword && consumers == root.disk.current
    {
      hide RG.Rest, RG.AllSafe, RG.Tidy, NameOf, Opened;
      handle, compensating, entry, stamp := None, false, root.disk.current, clock;
      if r.kind == ROTATE && r.key !in durable.idempotency {
        reply, err, verdict, saved := RotateFresh(r);
      } else {
        var v, stored := Invalid, NO_RESPONSE;
        if r.kind == ROTATE {
          stored, v := durable.idempotency[r.key], Fine;
        }
        var written: bool;
        reply, err, written := Publish(r, v, durable, stored);
        verdict, saved := v, written;
      }
      root.Forget();
    }

    /** The Manager's confirmation closes the journal. */
    method Confirm(operation: string, project: string, expectedRevision: int, nextRevision: int, fence: int) returns (err: Error)
      requires Idle()
      modifies this`durable
      ensures err == NoError ==> durable == old(durable).(rotation := None)
      ensures err != NoError ==> durable == old(durable)
      // Anything but the committed rotation of this revision is refused; only the write can fail otherwise.
      ensures err in {NoError, Failed(false)} <==>
        operation != "" && project != "" && expectedRevision < nextRevision
        && Confirmable(old(durable), operation, project, nextRevision, fence)
      ensures err !in {NoError, Failed(false)} ==> err in {InvalidRevision, StaleRevision}
      ensures recordable ==> err != Failed(false)
    {
      if operation == "" || project == "" || nextRevision <= expectedRevision {
        return InvalidRevision;
      }
      var m := durable;
      if m.project != project || m.revision != nextRevision || (fence > 0 && m.fence > fence) {
        return StaleRevision;
      }
      if m.rotation.Some? {
        var j := m.rotation.value;
        if j.operation != operation || j.phase != ProvisionerCommitted || j.nextRevision != nextRevision {
          return StaleRevision;
        }
      }
      var written := WriteMetadata(m.(rotation := None));
      err := if written then NoError else Failed(false);
    }

    /** Selects the runtime a rollback runs on: the journal's old generation, or a fresh one with the old password. */
    method SelectRollbackRuntime(r: Request, clock: Name) returns (err: Error)
      requires Idle() && root.Fresh(clock)
      modifies root
      ensures root.Valid() && OthersKept(old(root.disk), root.disk, clock)
      ensures err in {NoError, Failed(false), Panicked}
      ensures err == Panicked ==> root.disk == old(root.disk)
      ensures Reliable() && Anchored(durable, old(root.disk)) ==> err == NoError
      ensures err == NoError ==>
        if durable.rotation.Some? && durable.rotation.value.oldGeneration != Unset then
          && durable.rotation.value.oldGeneration.Generation?
          && root.disk.current == To(durable.rotation.value.oldGeneration.name)
          && root.disk.generations == old(root.disk).generations
        else if r.configuration.supabaseVersion != "" then
          root.disk.current == To(clock) && root.disk.Generation(clock) == Complete(Files(r.newPassword))
        else root.disk == old(root.disk)
    {
      if durable.rotation.Some? && durable.rotation.value.oldGeneration != Unset {
        var anchor := durable.rotation.value.oldGeneration;
        if anchor.CurrentLink? {
          return Failed(false);
        }
        var selected := root.Select(anchor.name);
        return if selected == RG.NoError then NoError else Failed(false);
      }
      if r.configuration.supabaseVersion == "" {
        return NoError;
      }
      var rendered := Works();
      if !rendered {
        return Failed(false);
      }
      var staged, h := root.Stage(clock, Files(r.newPassword));
      if !staged {
        // The restore closure is nil here, and the source calls it.
        return Panicked;
      }
      var validated := Works();
      if !validated {
        var _ := root.Restore(h);
        return Failed(false);
      }
      var committed := root.Commit(h);
      if committed != RG.NoError {
        var _ := root.Restore(h);
        return Failed(false);
      }
      err := NoError;
    }

    /** Compensates a rotation whose secret the Manager could not publish; old and new are swapped. */
    method RollbackDatabasePassword(r: Request, clock: Name) returns (err: Error)
      requires Idle() && root.Fresh(clock)
      modifies this, root
      ensures Idle() && OthersKept(old(root.disk), root.disk, clock)
      // Where nothing fails and the old generation is still there, it succeeds.
      ensures Reliable() && RollbackAdmissible(r, old(durable)) && Anchored(old(durable), old(root.disk)) ==> err == NoError
      // Repeating the key of a completed rollback does nothing.
      ensures RolledBackAlready(r, old(durable)) ==>
        && password == old(password) && consumers == old(consumers)
        && root.disk == old(root.disk) && durable == old(durable)
      // A request that is not for the stored revision touches nothing.
      ensures !RolledBackAlready(r, old(durable)) && !RollbackAdmissible(r, old(durable)) ==>
        && err in {InvalidRevision, StaleRevision}
        && password == old(password) && consumers == old(consumers) && root.disk == old(root.disk)
      ensures err == NoError && !RolledBackAlready(r, old(durable)) ==>
        && RollbackAdmissible(r, old(durable))
        && durable.revision == durable.configuration.revision == r.expectedRevision
        && durable.rotation == None && RolledBackAlready(r, durable)
        && password == r.newPassword && consumers == root.disk.current
        && (if old(durable).rotation.Some? && old(durable).rotation.value.oldGeneration != Unset then
              && NameOf(root.disk.current) == old(durable).rotation.value.oldGeneration
              && root.disk.generations == old(root.disk).generations
            else if r.configuration.supabaseVersion != "" then SelectedPassword() == Some(r.newPassword)
            else root.disk == old(root.disk))
      ensures err != NoError ==> durable == old(durable)
      // Staging failed: nothing has changed.
      ensures err == Panicked ==>
        password == old(password) && consumers == old(consumers) && root.disk == old(root.disk)
    {
      if r.kind != ROLLBACK || r.oldPassword == "" || r.newPassword == "" {
        return InvalidRevision;
      }
      if r.key in durable.idempotency && durable.idempotency[r.key].rolledBack {
        var rewritten := WriteMetadata(durable);
        return if rewritten then NoError else Failed(false);
      }
      if durable.project != r.project || durable.revision != r.nextRevision || (r.fence > 0 && durable.fence > r.fence) {
        return StaleRevision;
      }
      err := SelectRollbackRuntime(r, clock);
      if err == NoError {
        err := RestartOn(r);
      }
      if err == NoError {
        var done := Response(r.operation, r.project, r.expectedRevision, true, false, false, false);
        var written := WriteMetadata(durable.(
          revision := r.expectedRevision,
          configuration := durable.configuration.(revision := r.expectedRevision),
          rotation := None,
          idempotency := durable.idempotency[r.key := done]));
        err := if written then NoError else Failed(false);
      }
      root.Forget();
    }

    /** The role change and the restart of a rollback. */
    method RestartOn(r: Request) returns (err: Error)
      modifies this`password, this`consumers
      ensures err in {NoError, Failed(false)}
      ensures err == NoError ==> password == r.newPassword && consumers == root.disk.current
      ensures dependable ==> err == NoError
    {
      var changed := SetRolePasswords(r.newPassword);
      if !changed {
        return Failed(false);
      }
      var recreated := Recreate(root.disk.current);
      if !recreated {
        return Failed(false);
      }
      var healthy := Works();
      err := if healthy then NoError else Failed(false);
    }
  }

  /** The record a confirmation waits for: this revision, and no journal but the committed one. */
  ghost predicate Confirmable(m: Metadata, operation: string, project: string, nextRevision: int, fence: int) {
    && m.project == project && m.revision == nextRevision && (fence > 0 ==> m.fence <= fence)
    && (m.rotation.Some? ==>
          var j := m.rotation.value;
          j.operation == operation && j.phase == ProvisionerCommitted && j.nextRevision == nextRevision)
  }

  /** A rollback request for the stored revision. */
  ghost predicate RollbackAdmissible(r: Request, m: Metadata) {
    && r.kind == ROLLBACK && r.oldPassword != "" && r.newPassword != ""
    && m.project == r.project && m.revision == r.nextRevision && (r.fence > 0 ==> m.fence <= r.fence)
  }

  /** The generation a journal goes back to exists. */
  ghost predicate Anchored(m: Metadata, disk: Disk<Files>) {
    m.rotation.Some? && m.rotation.value.oldGeneration != Unset ==>
      m.rotation.value.oldGeneration.Generation? && disk.Generation(m.rotation.value.oldGeneration.name) != Missing
  }

  ghost predicate RolledBackAlready(r: Request, m: Metadata) {
    r.key in m.idempotency && m.idempotency[r.key].rolledBack
  }

  /** The rollback request that undoes a rotation. */
  ghost predicate Undoes(back: Request, forth: Request) {
    && back.oldPassword == forth.newPassword && back.newPassword == forth.oldPassword
    && back.expectedRevision == forth.expectedRevision && back.nextRevision == forth.nextRevision
    && back.configuration.supabaseVersion == forth.configuration.supabaseVersion
  }

  /**
   * A successful rotation, confirmed or not, followed by a successful rollback
   * restores the password, the revision and the password of the selected
   * generation.  Repeating the rollback changes nothing, and a confirmation
   * that arrives afterwards is refused.
   */
  method RotateThenRollback(b: Backend, forth: Request, back: Request, confirm: bool, clocks: (Name, Name, Name)) returns (rotated: bool, undone: bool)
    requires b.Idle() && b.root.Fresh(clocks.0)
    requires forth.key !in b.durable.idempotency && back.key !in b.durable.idempotency && forth.key != back.key
    requires b.durable.rotation.Some? ==> b.durable.rotation.value.operation != forth.operation
    requires b.password == forth.oldPassword && b.SelectedPassword() == Some(forth.oldPassword)
    requires Undoes(back, forth)
    modifies b, b.root
    ensures b.Reliable() && Admissible(forth, old(b.durable)) ==> rotated
    ensures rotated && undone ==>
      && b.password == old(b.password)
      && b.durable.revision == old(b.durable).revision
      && b.SelectedPassword() == old(b.SelectedPassword())
      && b.consumers == b.root.disk.current
      && (!confirm ==> b.root.disk.current == old(b.root.disk.current))
  {
    undone := false;
    ghost var entry, disk0 := b.root.disk.current, b.root.disk;
    var _, err, _, _ := b.RotateDatabasePassword(forth, clocks.0);
    rotated := err == NoError;
    if !rotated || !b.root.Fresh(clocks.1) {
      return;
    }
    var confirmed := NoError;
    if confirm {
      confirmed := b.Confirm(forth.operation, forth.project, forth.expectedRevision, forth.nextRevision, forth.fence);
    }
    ghost var disk1 := b.root.disk;
    var failure := b.RollbackDatabasePassword(back, clocks.1);
    undone := failure == NoError;
    if !undone || !b.root.Fresh(clocks.2) {
      return;
    }
    var late := b.Confirm(forth.operation, forth.project, forth.expectedRevision, forth.nextRevision, forth.fence);
    assert late in {InvalidRevision, StaleRevision};
    var _ := b.RollbackDatabasePassword(back, clocks.2);
  }

  /**
   * The same request twice.  After a result that was saved and is known, the
   * second call repeats it, or fails to write the record, and changes nothing;
   * after an unknown outcome the key has no result.
   */
  method RotateAgain(b: Backend, r: Request, clocks: (Name, Name)) returns (first: (Response, Error), second: (Response, Error), ghost verdict: Verdict, ghost saved: bool)
    requires b.Idle() && b.root.Fresh(clocks.0)
    requires r.kind == ROTATE && r.key !in b.durable.idempotency && b.password == r.oldPassword
    requires b.durable.rotation.Some? ==> b.durable.rotation.value.operation != r.operation
    modifies b, b.root
    ensures saved && (verdict == Fine || (verdict.Failure? && !verdict.unknown)) ==> second == first || second.1 == Failed(false)
    ensures !(saved && (verdict == Fine || (verdict.Failure? && !verdict.unknown))) ==> r.key !in b.durable.idempotency
    ensures first.1 == NoError ==> b.password == r.newPassword && b.durable.revision == r.nextRevision
    ensures first.0.rolledBack ==> b.password == r.oldPassword && b.root.disk.current == old(b.root.disk.current)
  {
    var reply, err;
    reply, err, verdict, saved := b.RotateDatabasePassword(r, clocks.0);
    first, second := (reply, err), (reply, err);
    if r.key in b.durable.idempotency && b.root.Fresh(clocks.1) {
      var again, failure, _, _ := b.RotateDatabasePassword(r, clocks.1);
      second := (again, failure);
    }
  }

  /** The journal a fresh rotation opens. */
  function Opened(r: Request, entry: Pointer): Journal {
    Journal(r.operation, Prepared, NameOf(entry), Unset, r.expectedRevision, r.nextRevision)
  }

  function NameOf(p: Pointer): JournalName {
    if p.To? then Generation(p.name) else CurrentLink
  }

  ghost predicate SameConfiguration(a: Metadata, b: Metadata) {
    a.configuration == b.configuration && a.enabledServices == b.enabledServices && a.project == b.project
  }

  /** A request the rotation accepts. */
  ghost predicate Admissible(r: Request, m: Metadata) {
    && r.kind == ROTATE && m.project == r.project && m.revision == r.expectedRevision < r.nextRevision
    && r.oldPassword != "" && r.newPassword != "" && r.oldPassword != r.newPassword
    && (r.fence > 0 ==> m.fence <= r.fence)
  }

  ghost predicate OthersKept(before: Disk<Files>, after: Disk<Files>, stamp: Name) {
    forall n :: n != stamp ==> after.Generation(n) == before.Generation(n)
  }

  ghost function PasswordOf(disk: Disk<Files>, p: Pointer): Option<string> {
    if p.To? && disk.Generation(p.name).Complete? then Some(disk.Generation(p.name).contents.password) else None
  }
}
