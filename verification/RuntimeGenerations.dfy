/**
 * Staged runtime generations: a candidate is prepared aside, committed by
 * moving the `current` link to it, and undone by the restore closure that came
 * with it.  Any directory operation or sync may fail, and closures may be
 * called in any order and any number of times.
 */
module RuntimeGenerations {
  import opened RuntimeDisk

  /** The variables one pair of restore/commit closures shares. */
  datatype Handle = Handle(
    name: Name,
    committed: bool,
    restored: bool,
    published: bool,
    previous: Pointer,
    cleaning: bool)

  /** Why a closure returned an error. */
  datatype Error =
    | NoError
    | PublishFailed      // renaming the candidate failed
    | SyncFailed         // a directory sync failed
    | ReadFailed         // `current` could not be read
    | Refused            // the pointer was not moved
    | Reverted           // the pointer was moved and moved back
    | Stranded           // the pointer was moved and moving it back failed
    | Unsynced           // the pointer was moved and moved back, but that was not synced
    | LegacyFailed       // migrating the legacy root files failed
    | Stale              // `current` names another generation
    | RemoveFailed       // the staged directory was not removed

  /** Bookkeeping over the live handles, by their indices. */
  datatype Trail = Trail(
    stack: seq<nat>,      // handles `current` was moved to and not back from, oldest first
    stranded: set<nat>,   // a commit failed with the pointer still on its generation
    exposed: set<nat>)    // a commit failed and an un-synced link may name its generation

  /** Names are never reused, and what was current before the handles is not theirs. */
  ghost predicate NamesDiffer(handles: seq<Handle>, bottom: Pointer) {
    && (forall i, j :: 0 <= i < j < |handles| ==> handles[i].name != handles[j].name)
    && (forall i :: 0 <= i < |handles| ==> To(handles[i].name) != bottom)
  }

  /**
   * The handles `current` was moved to form a stack: it names the last, and
   * what each of them found at its commit is the one under it.
   */
  ghost predicate Chained(current: Pointer, handles: seq<Handle>, stack: seq<nat>, bottom: Pointer, stranded: set<nat>)
    decreases |stack|
  {
    if stack == [] then current == bottom
    else
      var top, rest := stack[|stack| - 1], stack[..|stack| - 1];
      && top < |handles| && top !in rest
      && (handles[top].committed || top in stranded) && !handles[top].restored
      && current == To(handles[top].name)
      && Chained(handles[top].previous, handles, rest, bottom, stranded)
  }

  /** A pointer to a generation that is complete, or (strongly) complete and durable. */
  ghost predicate Firm<C>(disk: Disk<C>, p: Pointer, strong: bool) {
    if strong then disk.Sound(p) else p.To? ==> disk.Generation(p.name).Complete?
  }

  ghost predicate AllFirm<C>(disk: Disk<C>, current: Pointer, handles: seq<Handle>, stack: seq<nat>, strong: bool)
    decreases |stack|
  {
    && Firm(disk, current, strong)
    && (stack != [] ==>
          var top := stack[|stack| - 1];
          top < |handles| && AllFirm(disk, handles[top].previous, handles, stack[..|stack| - 1], strong))
  }

  ghost predicate AllSafe<C>(disks: seq<Disk<C>>) {
    forall d <- disks :: d.CrashSafe()
  }

  /** No link a crash can leave names the generation of an uncommitted handle, unless its commit exposed it. */
  ghost predicate Unlinked(links: set<Pointer>, handles: seq<Handle>, exposed: set<nat>) {
    forall i :: 0 <= i < |handles| && !handles[i].committed && i !in exposed ==> To(handles[i].name) !in links
  }

  /** The state between two calls: a stack of complete generations, and (strongly) crash safe. */
  ghost predicate Rest<C>(disk: Disk<C>, handles: seq<Handle>, bottom: Pointer, trail: Trail, strong: bool) {
    && NamesDiffer(handles, bottom)
    && trail.stranded <= trail.exposed
    && Chained(disk.current, handles, trail.stack, bottom, trail.stranded)
    && AllFirm(disk, disk.current, handles, trail.stack, strong)
    && (strong ==> disk.CrashSafe() && Unlinked(disk.links, handles, trail.exposed))
  }

  /** Only the top of the stack can name what `current` names. */
  lemma CurrentIsTop(current: Pointer, handles: seq<Handle>, stack: seq<nat>, bottom: Pointer, stranded: set<nat>, h: nat)
    requires NamesDiffer(handles, bottom) && Chained(current, handles, stack, bottom, stranded)
    requires h < |handles| && current == To(handles[h].name)
    ensures stack != [] && stack[|stack| - 1] == h
  {
  }

  lemma NotCurrent(current: Pointer, handles: seq<Handle>, stack: seq<nat>, bottom: Pointer, stranded: set<nat>, h: nat)
    requires NamesDiffer(handles, bottom) && Chained(current, handles, stack, bottom, stranded)
    requires h < |handles| && h !in stack
    ensures current != To(handles[h].name)
  {
  }

  /** A handle that was never committed or stranded, or was restored, is not on the stack. */
  lemma {:induction false} OffStack(current: Pointer, handles: seq<Handle>, stack: seq<nat>, bottom: Pointer, stranded: set<nat>, h: nat)
    requires Chained(current, handles, stack, bottom, stranded)
    requires h < |handles| && ((!handles[h].committed && h !in stranded) || handles[h].restored)
    ensures h !in stack
    decreases |stack|
  {
    if stack != [] {
      OffStack(handles[stack[|stack| - 1]].previous, handles, stack[..|stack| - 1], bottom, stranded, h);
    }
  }

  /** What the stack points at is the generation of no uncommitted, unexposed handle. */
  lemma ChainIsUnlinked(current: Pointer, handles: seq<Handle>, stack: seq<nat>, bottom: Pointer, stranded: set<nat>, exposed: set<nat>)
    requires NamesDiffer(handles, bottom) && Chained(current, handles, stack, bottom, stranded) && stranded <= exposed
    ensures Unlinked({current}, handles, exposed)
  {
    forall i | 0 <= i < |handles| && !handles[i].committed && i !in exposed ensures To(handles[i].name) != current {
      OffStack(current, handles, stack, bottom, stranded, i);
      NotCurrent(current, handles, stack, bottom, stranded, i);
    }
  }

  /** Changing a handle that is not on the stack, or the set of stranded handles off it, leaves the stack alone. */
  lemma {:induction false} EditKeepsChain<C>(disk: Disk<C>, current: Pointer, handles: seq<Handle>, stack: seq<nat>, bottom: Pointer, stranded: set<nat>, strong: bool, h: nat, entry: Handle, more: set<nat>)
    requires Chained(current, handles, stack, bottom, stranded) && AllFirm(disk, current, handles, stack, strong)
    requires h < |handles| && h !in stack
    ensures Chained(current, handles[h := entry], stack, bottom, stranded + more)
    ensures AllFirm(disk, current, handles[h := entry], stack, strong)
    decreases |stack|
  {
    if stack != [] {
      var top := stack[|stack| - 1];
      assert top in stack;
      EditKeepsChain(disk, handles[top].previous, handles, stack[..|stack| - 1], bottom, stranded, strong, h, entry, more);
    }
  }

  /** A new handle leaves the stack alone. */
  lemma {:induction false} GrowKeepsChain<C>(disk: Disk<C>, current: Pointer, handles: seq<Handle>, stack: seq<nat>, bottom: Pointer, stranded: set<nat>, strong: bool, entry: Handle)
    requires Chained(current, handles, stack, bottom, stranded) && AllFirm(disk, current, handles, stack, strong)
    ensures Chained(current, handles + [entry], stack, bottom, stranded)
    ensures AllFirm(disk, current, handles + [entry], stack, strong)
    decreases |stack|
  {
    if stack != [] {
      GrowKeepsChain(disk, handles[stack[|stack| - 1]].previous, handles, stack[..|stack| - 1], bottom, stranded, strong, entry);
    }
  }

  /** Disturbing only the generation of a handle that is not on the stack keeps the stack firm. */
  lemma {:induction false} DisturbKeepsFirm<C>(before: Disk<C>, after: Disk<C>, current: Pointer, handles: seq<Handle>, stack: seq<nat>, bottom: Pointer, stranded: set<nat>, strong: bool, h: nat)
    requires NamesDiffer(handles, bottom) && Chained(current, handles, stack, bottom, stranded)
    requires AllFirm(before, current, handles, stack, strong)
    requires h < |handles| && h !in stack
    requires forall p: Pointer :: p != To(handles[h].name) && Firm(before, p, strong) ==> Firm(after, p, strong)
    ensures AllFirm(after, current, handles, stack, strong)
    decreases |stack|
  {
    if stack != [] {
      var top := stack[|stack| - 1];
      assert top in stack && (top < h || h < top);
      DisturbKeepsFirm(before, after, handles[top].previous, handles, stack[..|stack| - 1], bottom, stranded, strong, h);
    }
  }

  lemma {:induction false} SyncKeepsFirm<C>(disk: Disk<C>, current: Pointer, handles: seq<Handle>, stack: seq<nat>, strong: bool)
    requires AllFirm(disk, current, handles, stack, strong)
    ensures AllFirm(SyncGenerations(disk), current, handles, stack, strong)
    decreases |stack|
  {
    if stack != [] {
      SyncKeepsFirm(disk, handles[stack[|stack| - 1]].previous, handles, stack[..|stack| - 1], strong);
    }
  }

  lemma {:induction false} SoundIsFirm<C>(disk: Disk<C>, current: Pointer, handles: seq<Handle>, stack: seq<nat>)
    requires AllFirm(disk, current, handles, stack, true)
    ensures AllFirm(disk, current, handles, stack, false)
    decreases |stack|
  {
    if stack != [] {
      SoundIsFirm(disk, handles[stack[|stack| - 1]].previous, handles, stack[..|stack| - 1]);
    }
  }

  /** Crash safety includes the stack. */
  lemma Weaken<C>(disk: Disk<C>, handles: seq<Handle>, bottom: Pointer, trail: Trail)
    requires Rest(disk, handles, bottom, trail, true)
    ensures Rest(disk, handles, bottom, trail, false)
  {
    SoundIsFirm(disk, disk.current, handles, trail.stack);
  }

  lemma GrowKeepsRest<C>(disk: Disk<C>, handles: seq<Handle>, bottom: Pointer, trail: Trail, strong: bool, entry: Handle)
    requires Rest(disk, handles, bottom, trail, strong)
    requires To(entry.name) !in disk.links + {bottom} && forall e <- handles :: e.name != entry.name
    ensures Rest(disk, handles + [entry], bottom, trail, strong)
  {
    GrowKeepsChain(disk, disk.current, handles, trail.stack, bottom, trail.stranded, strong, entry);
  }

  /** Rewriting the generation of a handle off the stack keeps the rest state, crash safe if no link names it. */
  lemma RewriteKeepsRest<C>(disk: Disk<C>, handles: seq<Handle>, bottom: Pointer, trail: Trail, strong: bool, h: nat, last: Directory<C>, passing: set<Directory<C>>)
    requires Rest(disk, handles, bottom, trail, strong)
    requires h < |handles| && h !in trail.stack && (strong ==> To(handles[h].name) !in disk.links)
    ensures Rest(Rewrite(disk, handles[h].name, last, passing), handles, bottom, trail, strong)
  {
    var next := Rewrite(disk, handles[h].name, last, passing);
    if strong {
      RewriteIsSafe(disk, handles[h].name, last, passing);
    }
    DisturbKeepsFirm(disk, next, disk.current, handles, trail.stack, bottom, trail.stranded, strong, h);
  }

  lemma SyncKeepsRest<C>(disk: Disk<C>, handles: seq<Handle>, bottom: Pointer, trail: Trail, strong: bool)
    requires Rest(disk, handles, bottom, trail, strong)
    ensures Rest(SyncGenerations(disk), handles, bottom, trail, strong)
    ensures strong ==> SyncGenerations(disk).CrashSafe()
  {
    if strong {
      SyncsAreSafe(disk);
    }
    SyncKeepsFirm(disk, disk.current, handles, trail.stack, strong);
  }

  /** Changing a handle off the stack, but not its name or commitment; more handles may become exposed. */
  lemma EditKeepsRest<C>(disk: Disk<C>, handles: seq<Handle>, bottom: Pointer, trail: Trail, strong: bool, h: nat, entry: Handle, more: set<nat>)
    requires Rest(disk, handles, bottom, trail, strong)
    requires h < |handles| && h !in trail.stack && entry.name == handles[h].name
    requires entry.committed == handles[h].committed
    ensures Rest(disk, handles[h := entry], bottom, trail.(exposed := trail.exposed + more), strong)
  {
    EditKeepsChain(disk, disk.current, handles, trail.stack, bottom, trail.stranded, strong, h, entry, {});
    assert trail.stranded + {} == trail.stranded;
  }

  /** Publishing, and then syncing generations/, keeps the rest state. */
  lemma PublishKeepsRest<C>(disk: Disk<C>, handles: seq<Handle>, bottom: Pointer, trail: Trail, strong: bool, h: nat, s: Directory<C>)
    requires Rest(disk, handles, bottom, trail, strong)
    requires h < |handles| && !handles[h].committed && h !in trail.exposed
    ensures
      var next, edited := Rewrite(disk, handles[h].name, s, {}), handles[h := handles[h].(published := true)];
      && Rest(next, edited, bottom, trail, strong) && Rest(SyncGenerations(next), edited, bottom, trail, strong)
      && (strong ==> next.CrashSafe() && SyncGenerations(next).CrashSafe())
  {
    OffStack(disk.current, handles, trail.stack, bottom, trail.stranded, h);
    RewriteKeepsRest(disk, handles, bottom, trail, strong, h, s, {});
    var next := Rewrite(disk, handles[h].name, s, {});
    EditKeepsRest(next, handles, bottom, trail, strong, h, handles[h].(published := true), {});
    assert trail.exposed + {} == trail.exposed;
    SyncKeepsRest(next, handles[h := handles[h].(published := true)], bottom, trail, strong);
  }

  /** Two disks that differ at most in their links, and in having been synced. */
  ghost predicate SameEntries<C>(a: Disk<C>, b: Disk<C>) {
    a.generations == b.generations && a.remains == b.remains && (a.rooted ==> b.rooted)
  }

  lemma {:induction false} SameEntriesKeepFirm<C>(before: Disk<C>, after: Disk<C>, current: Pointer, handles: seq<Handle>, stack: seq<nat>, strong: bool)
    requires AllFirm(before, current, handles, stack, strong) && SameEntries(before, after)
    ensures AllFirm(after, current, handles, stack, strong)
    decreases |stack|
  {
    assert Firm(after, current, strong);
    if stack != [] {
      SameEntriesKeepFirm(before, after, handles[stack[|stack| - 1]].previous, handles, stack[..|stack| - 1], strong);
    }
  }

  /** Leaving `current` on a firm generation pushes its handle, committed or stranded. */
  lemma PushKeepsRest<C>(before: Disk<C>, after: Disk<C>, handles: seq<Handle>, bottom: Pointer, trail: Trail, next: Trail, strong: bool, h: nat, entry: Handle)
    requires Rest(before, handles, bottom, trail, strong) && SameEntries(before, after)
    requires h < |handles| && !handles[h].committed && h !in trail.stranded
    requires entry.name == handles[h].name && !entry.restored && entry.previous == before.current
    requires next == if entry.committed then trail.(stack := trail.stack + [h])
                     else Trail(trail.stack + [h], trail.stranded + {h}, trail.exposed + {h})
    requires after.current == To(entry.name) && Firm(after, To(entry.name), strong)
    requires strong ==> after.CrashSafe() && after.links <= before.links + {before.current, after.current}
    ensures Rest(after, handles[h := entry], bottom, next, strong)
  {
    hide Chained, AllFirm, Firm, Unlinked, Disk.CrashSafe, SameEntries;
    OffStack(before.current, handles, trail.stack, bottom, trail.stranded, h);
    var more := if entry.committed then {} else {h};
    EditKeepsChain(before, before.current, handles, trail.stack, bottom, trail.stranded, strong, h, entry, more);
    SameEntriesKeepFirm(before, after, before.current, handles[h := entry], trail.stack, strong);
    assert trail.stranded + more == next.stranded;
    PushOne(after, before.current, handles[h := entry], trail.stack, bottom, next.stranded, strong, h);
    if strong {
      PushKeepsUnlinked(before, after, handles, bottom, trail, next.exposed, h, entry);
    }
  }

  /** One more handle on top. */
  lemma PushOne<C>(disk: Disk<C>, current: Pointer, handles: seq<Handle>, stack: seq<nat>, bottom: Pointer, stranded: set<nat>, strong: bool, h: nat)
    requires Chained(current, handles, stack, bottom, stranded) && AllFirm(disk, current, handles, stack, strong)
    requires h < |handles| && h !in stack && (handles[h].committed || h in stranded) && !handles[h].restored
    requires handles[h].previous == current && Firm(disk, To(handles[h].name), strong)
    ensures Chained(To(handles[h].name), handles, stack + [h], bottom, stranded)
    ensures AllFirm(disk, To(handles[h].name), handles, stack + [h], strong)
  {
    hide Firm;
    assert (stack + [h])[..|stack|] == stack;
  }

  lemma PushKeepsUnlinked<C>(before: Disk<C>, after: Disk<C>, handles: seq<Handle>, bottom: Pointer, trail: Trail, exposed: set<nat>, h: nat, entry: Handle)
    requires NamesDiffer(handles, bottom) && Chained(before.current, handles, trail.stack, bottom, trail.stranded)
    requires Unlinked(before.links, handles, trail.exposed) && trail.stranded <= trail.exposed <= exposed
    requires h < |handles| && entry.name == handles[h].name && (entry.committed || h in exposed)
    requires after.links <= before.links + {before.current, To(entry.name)}
    ensures Unlinked(after.links, handles[h := entry], exposed)
  {
    ChainIsUnlinked(before.current, handles, trail.stack, bottom, trail.stranded, trail.exposed);
    hide Chained;
  }

  /** Moving `current` back to what the top handle found pops it. */
  lemma PopKeepsRest<C>(before: Disk<C>, after: Disk<C>, handles: seq<Handle>, bottom: Pointer, trail: Trail, strong: bool)
    requires Rest(before, handles, bottom, trail, strong) && SameEntries(before, after)
    requires trail.stack != [] && trail.stack[|trail.stack| - 1] < |handles|
    requires after.current == handles[trail.stack[|trail.stack| - 1]].previous
    requires strong ==> after.CrashSafe() && Unlinked(after.links, handles, trail.exposed)
    ensures Rest(after, handles, bottom, trail.(stack := trail.stack[..|trail.stack| - 1]), strong)
    ensures trail.stack[|trail.stack| - 1] !in trail.stack[..|trail.stack| - 1]
  {
    var stack := trail.stack;
    SameEntriesKeepFirm(before, after, handles[stack[|stack| - 1]].previous, handles, stack[..|stack| - 1], strong);
  }

  /** A switch that leaves `current` alone keeps the rest state if it adds no link to an unexposed generation. */
  lemma RevertKeepsRest<C>(before: Disk<C>, after: Disk<C>, handles: seq<Handle>, bottom: Pointer, trail: Trail, strong: bool)
    requires Rest(before, handles, bottom, trail, strong) && SameEntries(before, after)
    requires after.current == before.current
    requires strong ==> after.CrashSafe() && Unlinked(after.links, handles, trail.exposed)
    ensures Rest(after, handles, bottom, trail, strong)
  {
    SameEntriesKeepFirm(before, after, before.current, handles, trail.stack, strong);
  }

  lemma SettledIsSafe<C>(disk: Disk<C>)
    requires disk.Settled()
    ensures disk.Sound(disk.current) ==> disk.CrashSafe()
  {
  }

  lemma CurrentIsSound<C>(before: Disk<C>, after: Disk<C>)
    requires before.CrashSafe() && SameEntries(before, after)
    ensures after.Sound(before.current)
  {
    assert before.Sound(before.current);
  }

  /** The pointer was moved, for however long. */
  predicate Moved(err: Error) {
    err in {NoError, LegacyFailed, Reverted, Unsynced, Stranded}
  }

  /** The bookkeeping after a commit that ended in a given way. */
  function After(trail: Trail, h: nat, err: Error): Trail {
    if err in {NoError, LegacyFailed} then trail.(stack := trail.stack + [h])
    else if err == Stranded then Trail(trail.stack + [h], trail.stranded + {h}, trail.exposed + {h})
    else if err == Unsynced then trail.(exposed := trail.exposed + {h})
    else trail
  }

  lemma RestIsSafe<C>(disk: Disk<C>, handles: seq<Handle>, bottom: Pointer, trail: Trail)
    requires Rest(disk, handles, bottom, trail, true)
    ensures disk.CrashSafe()
  {
  }

  lemma SecureDisk<C>(disk: Disk<C>, handles: seq<Handle>, bottom: Pointer, trail: Trail)
    ensures Rest(disk, handles, bottom, trail, true) ==> disk.CrashSafe()
  {
  }

  /** What a commit's pointer switch leaves: the rest state exactly when `current` was not left on an incomplete generation. */
  lemma SwitchedRest<C>(before: Disk<C>, after: Disk<C>, handles: seq<Handle>, bottom: Pointer, trail: Trail, strong: bool, h: nat, entry: Handle, err: Error)
    requires Rest(before, handles, bottom, trail, strong) && SameEntries(before, after)
    requires h < |handles| && !handles[h].committed && !handles[h].restored && h !in trail.exposed
    requires err in {NoError, Refused, Reverted, Unsynced, Stranded}
    requires entry.name == handles[h].name && !entry.restored && entry.previous == before.current
    requires entry.committed <==> err == NoError
    requires after.current == if err in {NoError, Stranded} then To(entry.name) else before.current
    requires after.links <= before.links + {To(entry.name), before.current}
    requires err in {Refused, Reverted} ==> after.links <= before.links + {before.current}
    requires before.CrashSafe() && before.Sound(To(entry.name)) ==> after.CrashSafe()
    requires err == NoError && after.Sound(To(entry.name)) ==> after.CrashSafe()
    requires err == Refused ==> after == before
    ensures (|| Firm(before, To(entry.name), strong) || err == Refused || (!strong && err !in {NoError, Stranded})
             || (err == NoError && Firm(after, To(entry.name), strong)))
            ==> Rest(after, handles[h := entry], bottom, After(trail, h, err), strong)
    ensures !strong && !Firm(before, To(entry.name), strong) && err in {NoError, Stranded} ==>
      !Rest(after, handles[h := entry], bottom, After(trail, h, err), strong)
  {
    hide NamesDiffer, Unlinked;
    OffStack(before.current, handles, trail.stack, bottom, trail.stranded, h);
    if err in {NoError, Stranded} {
      if Firm(before, To(entry.name), strong) || (err == NoError && Firm(after, To(entry.name), strong)) {
        PushKeepsRest(before, after, handles, bottom, trail, After(trail, h, err), strong, h, entry);
      }
    } else if Firm(before, To(entry.name), strong) || err == Refused || !strong {
      StayedRest(before, after, handles, bottom, trail, strong, h, entry, err);
    }
  }

  /** The same for what holds of the stack and of crash safety, whichever held before. */
  lemma Switched<C>(before: Disk<C>, after: Disk<C>, handles: seq<Handle>, bottom: Pointer, trail: Trail, standing: bool, secure: bool, h: nat, entry: Handle, err: Error)
    requires (standing ==> Rest(before, handles, bottom, trail, false)) && (secure ==> Rest(before, handles, bottom, trail, true))
    requires SameEntries(before, after)
    requires before.Generation(entry.name).Complete? ==> before.Durable(entry.name)
    requires h < |handles| && !handles[h].committed && !handles[h].restored && h !in trail.exposed
    requires err in {NoError, Refused, Reverted, Unsynced, Stranded}
    requires entry.name == handles[h].name && !entry.restored && entry.previous == before.current
    requires entry.committed <==> err == NoError
    requires after.current == if err in {NoError, Stranded} then To(entry.name) else before.current
    requires after.links <= before.links + {To(entry.name), before.current}
    requires err in {Refused, Reverted} ==> after.links <= before.links + {before.current}
    requires before.CrashSafe() && before.Sound(To(entry.name)) ==> after.CrashSafe()
    requires err == NoError ==> after.rooted && (after.Sound(To(entry.name)) ==> after.CrashSafe())
    requires err == Refused ==> after == before
    ensures
      var next, later := handles[h := entry], After(trail, h, err);
      var complete := before.Generation(entry.name).Complete?;
      && (standing ==> (Rest(after, next, bottom, later, false) <==> complete || err !in {NoError, Stranded}))
      && (secure && ((complete && (before.rooted || err == NoError)) || err == Refused) ==> Rest(after, next, bottom, later, true))
      && (before.Sound(To(entry.name)) <==> before.rooted && complete)
  {
    hide Rest, Disk.CrashSafe;
    if standing {
      SwitchedRest(before, after, handles, bottom, trail, false, h, entry, err);
    }
    if secure {
      SwitchedRest(before, after, handles, bottom, trail, true, h, entry, err);
    }
  }

  /** A switch that leaves `current` where it was. */
  lemma StayedRest<C>(before: Disk<C>, after: Disk<C>, handles: seq<Handle>, bottom: Pointer, trail: Trail, strong: bool, h: nat, entry: Handle, err: Error)
    requires Rest(before, handles, bottom, trail, strong) && SameEntries(before, after)
    requires h < |handles| && !handles[h].committed && h !in trail.stack
    requires err in {Refused, Reverted, Unsynced} && after.current == before.current
    requires entry.name == handles[h].name && !entry.committed
    requires after.links <= before.links + {To(entry.name), before.current}
    requires err in {Refused, Reverted} ==> after.links <= before.links + {before.current}
    requires strong ==> after.CrashSafe()
    ensures Rest(after, handles[h := entry], bottom, After(trail, h, err), strong)
  {
    hide Chained, AllFirm;
    var more := if err == Unsynced then {h} else {};
    EditKeepsRest(before, handles, bottom, trail, strong, h, entry, more);
    assert trail.(exposed := trail.exposed + more) == After(trail, h, err);
    if strong {
      StayedUnlinked(before.links, after.links, before.current, handles, bottom, trail, h, entry, err);
    }
    RevertKeepsRest(before, after, handles[h := entry], bottom, After(trail, h, err), strong);
  }

  lemma StayedUnlinked(before: set<Pointer>, after: set<Pointer>, current: Pointer, handles: seq<Handle>, bottom: Pointer, trail: Trail, h: nat, entry: Handle, err: Error)
    requires NamesDiffer(handles, bottom) && Unlinked(before, handles, trail.exposed) && current in before
    requires h < |handles| && entry.name == handles[h].name && entry.committed == handles[h].committed
    requires err in {Refused, Reverted, Unsynced}
    requires after <= before + {To(entry.name), current}
    requires err in {Refused, Reverted} ==> after <= before + {current}
    ensures Unlinked(after, handles[h := entry], After(trail, h, err).exposed)
  {
  }

  /** The top handle's previous pointer is sound when the stack is. */
  lemma StepBackIsSafe<C>(disk: Disk<C>, handles: seq<Handle>, bottom: Pointer, trail: Trail, h: nat)
    requires Rest(disk, handles, bottom, trail, true)
    requires h < |handles| && disk.current == To(handles[h].name)
    ensures disk.CrashSafe() && disk.Sound(handles[h].previous)
  {
    CurrentIsTop(disk.current, handles, trail.stack, bottom, trail.stranded, h);
    assert AllFirm(disk, handles[h].previous, handles, trail.stack[..|trail.stack| - 1], true);
  }

  /** What a restore's pointer switch leaves: the stack, or the stack without its top. */
  lemma SteppedBack<C>(before: Disk<C>, after: Disk<C>, handles: seq<Handle>, bottom: Pointer, trail: Trail, strong: bool, h: nat, err: Error)
    requires Rest(before, handles, bottom, trail, strong) && SameEntries(before, after)
    requires h < |handles| && before.current == To(handles[h].name)
    requires after.current == if err in {NoError, Stranded} then handles[h].previous else before.current
    requires after.links <= before.links + {handles[h].previous, before.current}
    requires strong ==> after.CrashSafe()
    ensures trail.stack != [] && trail.stack[|trail.stack| - 1] == h && h !in trail.stack[..|trail.stack| - 1]
    ensures Rest(after, handles, bottom,
                 if err in {NoError, Stranded} then trail.(stack := trail.stack[..|trail.stack| - 1]) else trail, strong)
  {
    var stack := trail.stack;
    CurrentIsTop(before.current, handles, stack, bottom, trail.stranded, h);
    ChainIsUnlinked(handles[h].previous, handles, stack[..|stack| - 1], bottom, trail.stranded, trail.exposed);
    ChainIsUnlinked(before.current, handles, stack, bottom, trail.stranded, trail.exposed);
    assert strong ==> Unlinked(after.links, handles, trail.exposed);
    if err in {NoError, Stranded} {
      PopKeepsRest(before, after, handles, bottom, trail, strong);
    } else {
      RevertKeepsRest(before, after, handles, bottom, trail, strong);
    }
  }

  lemma OffStackIsNotCurrent<C>(disk: Disk<C>, handles: seq<Handle>, bottom: Pointer, trail: Trail, strong: bool, h: nat)
    requires Rest(disk, handles, bottom, trail, strong)
    requires h < |handles| && h !in trail.stack
    ensures disk.current != To(handles[h].name)
  {
    NotCurrent(disk.current, handles, trail.stack, bottom, trail.stranded, h);
  }

  lemma UnexposedIsUnlinked<C>(disk: Disk<C>, handles: seq<Handle>, bottom: Pointer, trail: Trail, h: nat)
    requires Rest(disk, handles, bottom, trail, true)
    requires h < |handles| && !handles[h].committed && h !in trail.exposed
    ensures To(handles[h].name) !in disk.links && h !in trail.stack
  {
    OffStack(disk.current, handles, trail.stack, bottom, trail.stranded, h);
  }

  /** What a call may do to the staged candidates: nothing, take one away, or tear it. */
  ghost predicate Shed<C>(before: map<Name, Directory<C>>, after: map<Name, Directory<C>>, name: Name, torn: bool) {
    || after == before
    || after == before - {name}
    || (torn && name in before && after == before[name := Partial])
  }

  /** A restore that reports this about a committed, unrestored handle has moved the pointer away from it. */
  predicate SteppedAway(err: Error) {
    err in {NoError, Stranded, SyncFailed, RemoveFailed}
  }

  /** The closures' variables fit together. */
  ghost predicate Tidy(handles: seq<Handle>, staged: set<Name>, stranded: set<nat>, exposed: set<nat>) {
    && (forall i, j :: 0 <= i < j < |handles| ==> handles[i].name != handles[j].name)
    && (forall h <- handles :: h.committed ==> h.published)
    && (forall h <- handles :: h.published || h.restored ==> h.name !in staged)
    && (forall i <- exposed :: i < |handles| && handles[i].published)
    && stranded <= exposed
  }

  lemma TidyAfterRemoval(handles: seq<Handle>, staged: set<Name>, stranded: set<nat>, exposed: set<nat>, h: nat)
    requires Tidy(handles, staged, stranded, exposed) && h < |handles|
    ensures Tidy(handles, staged - {handles[h].name}, stranded, exposed)
    ensures handles[h].name in staged ==> staged + {handles[h].name} == staged
    ensures handles[h].published ==> handles[h].name !in staged
  {
  }

  lemma TidyAfterRename(handles: seq<Handle>, staged: set<Name>, stranded: set<nat>, exposed: set<nat>, h: nat)
    requires Tidy(handles, staged, stranded, exposed) && h < |handles| && handles[h].name in staged
    ensures Tidy(handles[h := handles[h].(published := true)], staged - {handles[h].name}, stranded, exposed)
    ensures !handles[h].published && !handles[h].restored && h !in exposed
  {
  }

  lemma TidyAfterRestore(handles: seq<Handle>, staged: set<Name>, stranded: set<nat>, exposed: set<nat>, h: nat)
    requires Tidy(handles, staged, stranded, exposed) && h < |handles| && handles[h].name !in staged
    ensures Tidy(handles[h := handles[h].(restored := true)], staged, stranded, exposed)
  {
  }

  lemma TidyAfterSwitch(handles: seq<Handle>, staged: set<Name>, trail: Trail, h: nat, entry: Handle, err: Error)
    requires Tidy(handles, staged, trail.stranded, trail.exposed) && h < |handles| && handles[h].published
    requires entry.name == handles[h].name && entry.published
    ensures Tidy(handles[h := entry], staged, After(trail, h, err).stranded, After(trail, h, err).exposed)
  {
  }

  class RuntimeRoot<C(==)> {
    var disk: Disk<C>
    var candidates: map<Name, Directory<C>>
    var handles: seq<Handle>
    /** `current` before the first commit of the live handles. */
    var bottom: Pointer

    /** Whether moving `current` back, and syncing that, always works; otherwise it may or may not. */
    const movable: bool
    const resyncable: bool
    /** Whether removing a staged directory always works; otherwise it may leave any part. */
    const removable: bool
    /** Whether no operation on the way forward fails; otherwise each may or may not. */
    const reliable: bool

    /** Every state the disk went through since the request began. */
    ghost var history: seq<Disk<C>>
    ghost var trail: Trail

    /** The candidate directory kept for a name. */
    function Candidate(n: Name): Directory<C>
      reads this
    {
      if n in candidates then candidates[n] else Missing
    }

    /** The clock never repeats a name. */
    predicate Fresh(name: Name)
      reads this
    {
      && To(name) !in disk.links + {disk.current, bottom}
      && disk.Generation(name) == Missing
      && forall e <- handles :: e.name != name
    }

    /** What holds whatever went wrong. */
    ghost predicate Valid()
      reads this
    {
      Tidy(handles, candidates.Keys, trail.stranded, trail.exposed)
    }

    /** For running code: `current` is absent or names a complete generation, and the generations form a stack. */
    ghost predicate Standing()
      reads this
    {
      Rest(disk, handles, bottom, trail, false)
    }

    /** In addition, a crash now would leave a complete generation or none. */
    ghost predicate Sheltered()
      reads this
    {
      Rest(disk, handles, bottom, trail, true)
    }

    /** And so it would have been at every instant so far. */
    ghost predicate Secure()
      reads this
    {
      Sheltered() && AllSafe(history)
    }

    lemma SecureIsStanding()
      requires Secure()
      ensures Standing()
    {
      Weaken(disk, handles, bottom, trail);
    }

    constructor (d: Disk<C>, movable: bool, resyncable: bool, removable: bool, reliable: bool)
      requires d.CrashSafe()
      ensures Valid() && Secure()
      ensures this.movable == movable && this.resyncable == resyncable && this.removable == removable && this.reliable == reliable
      ensures disk == d && bottom == d.current && handles == [] && candidates == map[]
    {
      disk, candidates, handles, bottom := d, map[], [], d.current;
      this.movable, this.resyncable, this.removable, this.reliable := movable, resyncable, removable, reliable;
      history, trail := [d], Trail([], {}, {});
    }

    /** The disk moves on by one operation. */
    method Record(next: Disk<C>)
      modifies this`disk, this`history
      ensures disk == next && history == old(history) + [next]
    {
      disk := next;
      history := history + [next];
    }

    /** Whether an operation works this time. */
    method Works() returns (ok: bool)
      ensures reliable ==> ok
    {
      var lucky: bool := *;
      ok := reliable || lucky;
    }

    /** A directory sync: it succeeds or leaves everything as possible as it was. */
    method SyncPointer() returns (ok: bool)
      modifies this`disk, this`history
      ensures disk == if ok then SyncLinks(old(disk)) else old(disk)
      ensures history == if ok then old(history) + [disk] else old(history)
      ensures reliable ==> ok
    {
      ok := Works();
      if ok {
        Record(SyncLinks(disk));
      }
    }

    method SyncEntries() returns (ok: bool)
      modifies this`disk, this`history
      ensures disk == if ok then SyncGenerations(old(disk)) else old(disk)
      ensures history == if ok then old(history) + [disk] else old(history)
      ensures reliable ==> ok
    {
      ok := Works();
      if ok {
        Record(SyncGenerations(disk));
      }
    }

    /** Replacing or removing the link itself. */
    method TryRelink(target: Pointer) returns (ok: bool)
      modifies this`disk, this`history
      ensures disk == if ok then Relink(old(disk), target) else old(disk)
      ensures history == if ok then old(history) + [disk] else old(history)
      ensures reliable ==> ok
    {
      ok := Works();
      if ok {
        Record(Relink(disk, target));
      }
    }

    /** restoreRuntimePointer: moves `current` back and syncs. */
    method MoveBack(previous: Pointer) returns (err: Error)
      modifies this`disk, this`history
      ensures (err == Stranded ==> !movable) && (err == Unsynced ==> !resyncable)
      ensures err in {Reverted, Unsynced, Stranded}
      ensures SameEntries(old(disk), disk) && old(history) <= history
      ensures err == Stranded ==> disk == old(disk)
      ensures err != Stranded ==> disk.current == previous
      ensures err == Unsynced ==> disk.links == old(disk).links + {previous}
      ensures err == Reverted ==> disk.Settled() && disk.rooted
      ensures err != Reverted ==> disk.rooted == old(disk).rooted
      ensures old(disk).CrashSafe() && old(disk).Sound(previous) ==>
        disk.CrashSafe() && (old(AllSafe(history)) ==> AllSafe(history))
    {
      hide Disk.CrashSafe, Disk.Sound;
      ghost var sound := disk.CrashSafe() && disk.Sound(previous);
      if sound {
        RelinkIsSafeIff(disk, previous);
      }
      var stuck: bool, unsynced: bool := *, *;
      if stuck && !movable {
        return Stranded;
      }
      Record(Relink(disk, previous));
      if sound {
        SyncsAreSafe(disk);
      }
      if unsynced && !resyncable {
        return Unsynced;
      }
      Record(SyncLinks(disk));
      err := Reverted;
    }

    /** Moves `current`, syncs, and moves it back when the sync fails. */
    method Switch(target: Pointer) returns (err: Error)
      modifies this`disk, this`history
      ensures (err == Stranded ==> !movable) && (err == Unsynced ==> !resyncable)
      ensures err in {NoError, Refused, Reverted, Unsynced, Stranded} && (reliable ==> err == NoError)
      ensures SameEntries(old(disk), disk) && old(history) <= history
      ensures disk.current == if err in {NoError, Stranded} then target else old(disk).current
      ensures err == NoError ==> (disk.Settled() && disk.rooted) || (target == Absent && disk == old(disk))
      ensures err == Reverted ==> disk.Settled() && disk.rooted
      ensures err in {Unsynced, Stranded} ==> disk.rooted == old(disk).rooted
      ensures err == Refused ==> disk == old(disk) && history == old(history)
      ensures err in {Unsynced, Stranded} ==> target in disk.links
      ensures disk.links <= old(disk).links + {target, old(disk).current}
      // Crash safe at every instant exactly when the target is complete and durable in a durable generations/.
      ensures old(disk).CrashSafe() && old(disk).Sound(target) ==> disk.CrashSafe()
      ensures err == NoError && target.To? && disk.Sound(target) ==> disk.CrashSafe()
      ensures old(AllSafe(history)) && old(disk).CrashSafe() ==>
        (AllSafe(history) <==> err == Refused || old(disk).Sound(target))
    {
      ghost var before := disk;
      ghost var sound := before.CrashSafe() && before.Sound(target);
      assert before.Sound(Absent);
      hide Disk.CrashSafe, Disk.Sound;
      var previous := disk.current;
      var readable := Works();
      if !readable {
        return Refused;
      }
      if target == Absent && previous == Absent {
        return NoError;
      }
      if before.CrashSafe() {
        RelinkIsSafeIff(disk, target);
      }
      var moved := TryRelink(target);
      if !moved {
        return Refused;
      }
      ghost var away := disk;
      assert away in history;
      if sound {
        SyncsAreSafe(disk);
      }
      var synced := SyncPointer();
      assert away in history;
      if synced {
        SettledIsSafe(disk);
        return NoError;
      }
      if sound {
        CurrentIsSound(before, disk);
      }
      err := MoveBack(previous);
      assert away in history;
    }

    /** Prepares a candidate directory beside the generations, named by the clock. */
    method Stage(name: Name, contents: C) returns (ok: bool, h: nat)
      requires Valid() && Fresh(name)
      modifies this`candidates, this`handles
      ensures Valid()
      ensures old(Standing()) ==> Standing()
      ensures old(Secure()) ==> Secure()
      ensures ok ==>
        && h == |old(handles)| && disk.Generation(name) == Missing
        && handles == old(handles) + [Handle(name, false, false, false, Absent, false)]
        && candidates == old(candidates)[name := Complete(contents)]
      ensures !ok ==> handles == old(handles) && candidates == old(candidates)
      ensures reliable ==> ok
    {
      hide Rest;
      h := |handles|;
      ok := Works();
      if !ok {
        return;
      }
      var entry := Handle(name, false, false, false, Absent, false);
      if Standing() {
        GrowKeepsRest(disk, handles, bottom, trail, false, entry);
      }
      if Secure() {
        GrowKeepsRest(disk, handles, bottom, trail, true, entry);
      }
      handles := handles + [entry];
      candidates := candidates[name := Complete(contents)];
    }

    /** The candidate directory is renamed into generations/. */
    method Rename(h: nat) returns (ok: bool)
      requires Valid() && h < |handles| && !handles[h].committed
      modifies this`disk, this`history, this`candidates, this`handles
      ensures Valid() && old(history) <= history
      ensures old(Standing()) ==> Standing()
      ensures old(Secure()) ==> Secure()
      ensures !ok ==>
        disk == old(disk) && handles == old(handles) && candidates == old(candidates) && history == old(history)
      ensures reliable && old(handles)[h].name in old(candidates) ==> ok
      ensures ok ==>
        var name := old(handles)[h].name;
        && name in old(candidates)
        && !old(handles)[h].restored && !old(handles)[h].published
        && candidates == old(candidates) - {name}
        && handles == old(handles)[h := old(handles)[h].(published := true)]
        && disk == Rewrite(old(disk), name, old(Candidate(handles[h].name)), {})
    {
      hide Rest, Disk.CrashSafe, Tidy;
      var name := handles[h].name;
      ok := Works();
      if !ok || name !in candidates {
        return false;
      }
      TidyAfterRename(handles, candidates.Keys, trail.stranded, trail.exposed, h);
      assert (candidates - {name}).Keys == candidates.Keys - {name};
      if Standing() {
        PublishKeepsRest(disk, handles, bottom, trail, false, h, candidates[name]);
      }
      if Secure() {
        PublishKeepsRest(disk, handles, bottom, trail, true, h, candidates[name]);
      }
      Record(Rewrite(disk, name, candidates[name], {}));
      candidates := candidates - {name};
      handles := handles[h := handles[h].(published := true)];
    }

    /** A sync of generations/ keeps what holds. */
    method Settle() returns (ok: bool)
      modifies this`disk, this`history
      ensures disk == if ok then SyncGenerations(old(disk)) else old(disk)
      ensures old(history) <= history && (!ok ==> history == old(history)) && (reliable ==> ok)
      ensures old(Standing()) ==> Standing()
      ensures old(Secure()) ==> Secure()
    {
      hide Rest, Disk.CrashSafe;
      if Standing() {
        SyncKeepsRest(disk, handles, bottom, trail, false);
      }
      if Secure() {
        SyncKeepsRest(disk, handles, bottom, trail, true);
      }
      ok := SyncEntries();
    }

    /** First half of commit: the candidate becomes a durable entry of generations/. */
    method Publish(h: nat) returns (err: Error)
      requires Valid() && h < |handles| && !handles[h].committed
      modifies this`disk, this`history, this`candidates, this`handles
      ensures Valid() && old(history) <= history
      ensures old(Standing()) ==> Standing()
      ensures old(Secure()) ==> Secure()
      ensures err in {NoError, PublishFailed, SyncFailed} && (reliable && old(handles)[h].name in old(candidates) ==> err == NoError)
      ensures disk.current == old(disk).current && disk.links == old(disk).links && disk.rooted == old(disk).rooted
      ensures |handles| == |old(handles)|
      ensures forall n :: n != handles[h].name ==> disk.Generation(n) == old(disk).Generation(n)
      ensures err == PublishFailed ==>
        disk == old(disk) && handles == old(handles) && candidates == old(candidates) && history == old(history)
      ensures old(handles)[h].name !in old(candidates) ==> err == PublishFailed
      ensures err != PublishFailed ==>
        var name := old(handles)[h].name;
        && !old(handles)[h].restored && !old(handles)[h].published
        && candidates == old(candidates) - {name}
        && handles == old(handles)[h := old(handles)[h].(published := true)]
        && disk.Generation(name) == old(Candidate(handles[h].name))
      ensures err == NoError && disk.Generation(handles[h].name).Complete? ==> disk.Durable(handles[h].name)
    {
      hide Rest, AllSafe;
      var renamed := Rename(h);
      if !renamed {
        return PublishFailed;
      }
      var synced := Settle();
      err := if synced then NoError else SyncFailed;
    }

    /** Second half of commit: `current` moves to the published generation. */
    method Activate(h: nat) returns (err: Error)
      requires Valid() && h < |handles| && h !in trail.exposed
      requires !handles[h].committed && !handles[h].restored && handles[h].published
      requires disk.Generation(handles[h].name).Complete? ==> disk.Durable(handles[h].name)
      modifies this`disk, this`history, this`handles, this`trail
      ensures (err == Stranded ==> !movable) && (err == Unsynced ==> !resyncable)
      ensures Valid() && SameEntries(old(disk), disk) && old(history) <= history
      ensures err in {NoError, ReadFailed, Refused, Reverted, Unsynced, Stranded} && (reliable ==> err == NoError)
      ensures disk.current == if err in {NoError, Stranded} then To(old(handles)[h].name) else old(disk).current
      ensures (err == NoError ==> disk.Settled()) && (err in {NoError, Reverted} ==> disk.rooted)
      ensures err in {Unsynced, Stranded} ==> To(old(handles)[h].name) in disk.links
      ensures
        var entry := old(handles)[h];
        handles == old(handles)[h :=
          if err == NoError then entry.(committed := true, cleaning := true, previous := old(disk).current)
          else if err == ReadFailed then entry
          else entry.(previous := old(disk).current)]
      ensures trail == After(old(trail), h, err)
      ensures old(Standing()) ==>
        (Standing() <==> old(disk).Generation(old(handles)[h].name).Complete? || err !in {NoError, Stranded})
      ensures old(Secure()) ==>
        (Secure() <==> (old(disk).rooted && old(disk).Generation(old(handles)[h].name).Complete?) || err in {ReadFailed, Refused})
      ensures old(Secure()) && !Secure() ==> !AllSafe(history)
      ensures old(Secure()) && err == NoError && old(disk).Generation(old(handles)[h].name).Complete? ==> Sheltered()
    {
      hide Rest, Tidy, AllSafe, Disk.CrashSafe;
      var readable := Works();
      if !readable {
        assert handles[h := handles[h]] == handles && After(trail, h, ReadFailed) == trail;
        return ReadFailed;
      }
      hide After, Firm, Disk.Sound, SameEntries;
      ghost var before, known, path, standing, secure := disk, handles, trail, Standing(), Secure();
      SecureDisk(disk, handles, bottom, trail);
      var target := handles[h].name;
      handles := handles[h := handles[h].(previous := disk.current)];
      err := Switch(To(target));
      if err == NoError {
        handles := handles[h := handles[h].(committed := true, cleaning := true)];
      }
      trail := After(trail, h, err);
      assert handles == known[h := handles[h]];
      TidyAfterSwitch(known, candidates.Keys, path, h, handles[h], err);
      Switched(before, disk, known, bottom, path, standing, secure, h, handles[h], err);
    }

    /** The commit closure. */
    method Commit(h: nat) returns (err: Error)
      requires Valid() && h < |handles|
      modifies this`disk, this`history, this`candidates, this`handles, this`trail
      ensures (err == Stranded ==> !movable) && (err == Unsynced ==> !resyncable)
      ensures Valid() && old(history) <= history
      ensures err !in {Stale, RemoveFailed} && (old(disk).rooted ==> disk.rooted)
      ensures reliable && (old(handles)[h].committed || old(handles)[h].name in old(candidates)) ==> err == NoError
      ensures err in {LegacyFailed, Reverted} ==> disk.rooted
      ensures forall n :: n != old(handles)[h].name ==> disk.Generation(n) == old(disk).Generation(n)
      // A second commit reports success and does nothing.
      ensures old(handles)[h].committed ==>
        && err == NoError && disk == old(disk) && handles == old(handles) && candidates == old(candidates)
        && trail == old(trail) && history == old(history)
      // The pointer is on the new generation after a success, and after a move back that failed.
      ensures !old(handles)[h].committed ==>
        disk.current == if err in {NoError, LegacyFailed, Stranded} then To(old(handles)[h].name) else old(disk).current
      ensures !old(handles)[h].committed ==> trail == After(old(trail), h, err)
      // The closure remembers what it replaced.
      ensures !old(handles)[h].committed && err in {NoError, LegacyFailed} ==>
        && disk.Settled() && disk.rooted && disk.Generation(old(handles)[h].name) == old(Candidate(handles[h].name))
        && handles == old(handles)[h := old(handles)[h].(committed := true, published := true, cleaning := true, previous := old(disk).current)]
      ensures err !in {NoError, LegacyFailed} ==>
        exists published: bool, previous: Pointer :: handles == old(handles)[h := old(handles)[h].(published := published, previous := previous)]
      ensures err == PublishFailed ==> disk == old(disk) && handles == old(handles) && candidates == old(candidates)
      ensures err != PublishFailed && !old(handles)[h].committed ==> candidates == old(candidates) - {old(handles)[h].name}
      ensures !old(handles)[h].committed && old(handles)[h].name !in old(candidates) ==> err == PublishFailed
      ensures err != PublishFailed ==> handles[h].published
      ensures err in {Unsynced, Stranded} ==> To(old(handles)[h].name) in disk.links
      // The stack of complete generations survives exactly unless the pointer stays on a half-removed candidate.
      ensures old(Standing()) ==>
        (Standing() <==> || old(handles)[h].committed || old(Candidate(handles[h].name)).Complete?
                         || err !in {NoError, LegacyFailed, Stranded})
      // A success leaves the runtime sheltered, even where the way there was not safe.
      ensures old(Secure()) && err in {NoError, LegacyFailed} && (old(handles)[h].committed || old(Candidate(handles[h].name)).Complete?) ==>
        Sheltered()
      // Crash safety at every instant survives exactly unless the pointer ever named a half-removed candidate,
      // or any generation before .manager-runtime was synced with generations/ in it.
      ensures old(Secure()) ==>
        (Secure() <==> || old(handles)[h].committed || !Moved(err)
                       || (old(disk).rooted && old(Candidate(handles[h].name)).Complete?))
      ensures old(Secure()) && !Secure() ==> !AllSafe(history)
    {
      hide Rest, AllSafe;
      ghost var entry := handles[h];
      if handles[h].committed {
        return NoError;
      }
      err := Publish(h);
      if err == PublishFailed {
        assert handles[h := entry.(published := entry.published, previous := entry.previous)] == handles;
        return;
      }
      if err != NoError {
        assert handles == old(handles)[h := entry.(published := true, previous := entry.previous)];
        return;
      }
      err := Activate(h);
      if err != NoError {
        ghost var previous := handles[h].previous;
        assert handles == old(handles)[h := entry.(published := true, previous := previous)];
        return;
      }
      var migrated := Works();
      err := if migrated then NoError else LegacyFailed;
    }

    /** RemoveAll on a staged directory: it can fail having removed nothing or a part. */
    method RemoveStaged(h: nat) returns (ok: bool)
      requires Valid() && h < |handles|
      modifies this`disk, this`history, this`candidates
      ensures Valid() && old(history) <= history
      ensures disk.current == old(disk).current && disk.links == old(disk).links && disk.rooted == old(disk).rooted
      ensures forall n :: n != handles[h].name ==> disk.Generation(n) == old(disk).Generation(n)
      ensures !handles[h].published ==> disk == old(disk) && history == old(history)
      ensures handles[h].published ==> candidates == old(candidates) && history == old(history) + [disk]
      ensures (removable || reliable ==> ok) && Shed(old(candidates), candidates, handles[h].name, !ok && !handles[h].published)
      ensures ok ==> handles[h].name !in candidates && (handles[h].published ==> disk.Generation(handles[h].name) == Missing)
      ensures ok && handles[h].published && old(disk).CrashSafe() && To(handles[h].name) in disk.links ==> !disk.CrashSafe()
      ensures old(Standing()) && (!handles[h].published || h !in trail.stack) ==> Standing()
      ensures old(Secure()) && (!handles[h].published || (h !in trail.stack && To(handles[h].name) !in disk.links)) ==> Secure()
    {
      hide Rest, Tidy;
      TidyAfterRemoval(handles, candidates.Keys, trail.stranded, trail.exposed, h);
      var name := handles[h].name;
      ok := Works();
      ok := ok || removable;
      var begun: bool := *;
      if !handles[h].published {
        if ok {
          assert (candidates - {name}).Keys == candidates.Keys - {name};
          candidates := candidates - {name};
        } else if name in candidates && begun {
          assert candidates[name := Partial].Keys == candidates.Keys + {name};
          candidates := candidates[name := Partial];
        }
        return;
      }
      var last := if ok then Missing else if begun then Partial else disk.Generation(name);
      if Standing() && h !in trail.stack {
        RewriteKeepsRest(disk, handles, bottom, trail, false, h, last, {Partial});
      }
      if Secure() && h !in trail.stack && To(name) !in disk.links {
        RewriteKeepsRest(disk, handles, bottom, trail, true, h, last, {Partial});
        RestIsSafe(Rewrite(disk, name, last, {Partial}), handles, bottom, trail);
      }
      if disk.CrashSafe() && ok {
        RemovalIsSafeIff(disk, name, last);
      }
      Record(Rewrite(disk, name, last, {Partial}));
    }

    /** Restore's pointer step: only the generation that is current can be undone. */
    method StepBack(h: nat) returns (err: Error)
      requires Valid() && h < |handles| && handles[h].committed && !handles[h].restored
      modifies this`disk, this`history, this`trail
      ensures (err == Stranded ==> !movable) && (err == Unsynced ==> !resyncable)
      ensures Valid() && SameEntries(old(disk), disk) && old(history) <= history
      ensures err in {NoError, ReadFailed, Stale, Refused, Reverted, Unsynced, Stranded}
      ensures reliable && old(disk).current == To(handles[h].name) ==> err == NoError
      ensures disk.current == if err in {NoError, Stranded} then handles[h].previous else old(disk).current
      ensures err == NoError ==> old(disk).current == To(handles[h].name) && disk.Settled()
      ensures err in {ReadFailed, Stale} ==> disk == old(disk) && history == old(history)
      ensures old(disk).current != To(handles[h].name) ==> err in {ReadFailed, Stale}
      ensures trail.stranded == old(trail).stranded && trail.exposed == old(trail).exposed
      ensures err !in {NoError, Stranded} ==> trail == old(trail)
      // Not even a lost compensation harms a restore.
      ensures old(Standing()) ==> Standing()
      ensures old(Secure()) ==> Secure()
      ensures old(Standing()) && err in {NoError, Stranded} ==> old(trail).stack == trail.stack + [h] && h !in trail.stack
    {
      hide Tidy, Disk.CrashSafe, Disk.Sound, AllFirm;
      var readable := Works();
      if !readable || disk.current == Absent {
        return ReadFailed;
      }
      if disk.current != To(handles[h].name) {
        return Stale;
      }
      ghost var before, path, standing, secure := disk, trail, Standing(), Secure();
      if secure {
        SecureIsStanding();
        StepBackIsSafe(disk, handles, bottom, trail, h);
      }
      err := Switch(handles[h].previous);
      if err in {NoError, Stranded} && path.stack != [] {
        trail := trail.(stack := trail.stack[..|trail.stack| - 1]);
      }
      if standing {
        SteppedBack(before, disk, handles, bottom, path, false, h, err);
      }
      if secure {
        SteppedBack(before, disk, handles, bottom, path, true, h, err);
      }
    }

    /** The closure notes that it has restored. */
    method MarkRestored(h: nat)
      requires Valid() && h < |handles| && handles[h].name !in candidates
      modifies this`handles
      ensures Valid() && handles == old(handles)[h := old(handles)[h].(restored := true)]
      ensures old(Standing()) && h !in trail.stack ==> Standing()
      ensures old(Secure()) && h !in trail.stack ==> Secure()
    {
      hide Rest, Tidy, AllSafe;
      TidyAfterRestore(handles, candidates.Keys, trail.stranded, trail.exposed, h);
      if Standing() && h !in trail.stack {
        EditKeepsRest(disk, handles, bottom, trail, false, h, handles[h].(restored := true), {});
      }
      if Secure() && h !in trail.stack {
        EditKeepsRest(disk, handles, bottom, trail, true, h, handles[h].(restored := true), {});
      }
      assert trail.(exposed := trail.exposed + {}) == trail;
      handles := handles[h := handles[h].(restored := true)];
    }

    /** Last part of restore: the staged directory goes away and its removal is synced. */
    method Discard(h: nat) returns (err: Error)
      requires Valid() && h < |handles| && !handles[h].restored
      modifies this`disk, this`history, this`candidates, this`handles
      ensures Valid() && old(history) <= history
      ensures err in {NoError, RemoveFailed, SyncFailed} && (err == RemoveFailed ==> !removable) && (reliable ==> err == NoError)
      ensures Shed(old(candidates), candidates, old(handles)[h].name, err == RemoveFailed && !old(handles)[h].published)
      ensures old(handles)[h].published ==> candidates == old(candidates)
      ensures disk.current == old(disk).current && disk.links == old(disk).links && disk.rooted == old(disk).rooted
      ensures forall n :: n != old(handles)[h].name ==> disk.Generation(n) == old(disk).Generation(n)
      ensures handles == old(handles) || handles == old(handles)[h := old(handles)[h].(restored := true)]
      ensures err == NoError ==> handles == old(handles)[h := old(handles)[h].(restored := true)]
      ensures err in {NoError, SyncFailed} ==>
        && old(handles)[h].name !in candidates
        && (old(handles)[h].published ==> disk.Generation(old(handles)[h].name) == Missing)
      ensures err == NoError && old(handles)[h].published && old(disk).CrashSafe() && To(old(handles)[h].name) in disk.links ==>
        !AllSafe(history)
      ensures old(Standing()) && h !in trail.stack ==> Standing()
      ensures old(Secure()) && h !in trail.stack && (old(handles)[h].published ==> To(old(handles)[h].name) !in disk.links) ==> Secure()
    {
      hide Rest, Tidy, Disk.CrashSafe;
      var removed := RemoveStaged(h);
      if !removed {
        return RemoveFailed;
      }
      ghost var torn := disk;
      assert handles[h].published ==> torn in history;
      var synced := Settle();
      if !synced {
        return SyncFailed;
      }
      assert handles[h].published ==> torn in history;
      MarkRestored(h);
      synced := Works();
      err := if synced then NoError else SyncFailed;
    }

    /** A committed generation: back to what the commit found, then away with it. */
    method UndoCommitted(h: nat) returns (err: Error)
      requires Valid() && h < |handles| && handles[h].committed && !handles[h].restored
      modifies this`disk, this`history, this`candidates, this`handles, this`trail
      ensures (err == Stranded ==> !movable) && (err == Unsynced ==> !resyncable) && (err == RemoveFailed ==> !removable)
      ensures Valid() && old(history) <= history && candidates == old(candidates) && err != PublishFailed
      ensures reliable && old(disk).current == To(old(handles)[h].name) ==> err == NoError
      ensures handles == old(handles) || (handles == old(handles)[h := old(handles)[h].(restored := true)] && disk.current == old(handles)[h].previous)
      ensures forall n :: n != old(handles)[h].name ==> disk.Generation(n) == old(disk).Generation(n)
      ensures trail.stranded == old(trail).stranded && trail.exposed == old(trail).exposed
      ensures disk.current in {old(disk).current, old(handles)[h].previous} && (old(disk).rooted ==> disk.rooted)
      ensures err == NoError ==>
        && old(disk).current == To(old(handles)[h].name) && disk.current == old(handles)[h].previous
        && handles == old(handles)[h := old(handles)[h].(restored := true)]
        && old(handles)[h].name !in candidates && disk.Generation(old(handles)[h].name) == Missing
      ensures old(Standing()) ==> if SteppedAway(err) then old(trail).stack == trail.stack + [h] else trail == old(trail)
      ensures old(disk).current != To(old(handles)[h].name) ==>
        err in {ReadFailed, Stale} && disk == old(disk) && handles == old(handles) && candidates == old(candidates)
      ensures old(Standing()) && h !in old(trail).stack ==> err in {ReadFailed, Stale} && disk == old(disk)
      ensures old(Standing()) ==> Standing()
      ensures old(Secure()) ==> Secure()
    {
      hide Rest, AllSafe, Disk.CrashSafe;
      if Secure() {
        SecureIsStanding();
      }
      ghost var standing := Standing();
      assert handles[h].published;
      hide Tidy;
      if standing && h !in trail.stack {
        OffStackIsNotCurrent(disk, handles, bottom, trail, false, h);
      }
      err := StepBack(h);
      if err != NoError {
        return;
      }
      if standing {
        OffStackIsNotCurrent(disk, handles, bottom, trail, false, h);
      }
      err := Discard(h);
    }

    /** A generation that was never committed: away with it. */
    method UndoStaged(h: nat) returns (err: Error)
      requires Valid() && h < |handles| && !handles[h].committed && !handles[h].restored
      modifies this`disk, this`history, this`candidates, this`handles
      ensures Valid() && old(history) <= history
      ensures err in {NoError, RemoveFailed, SyncFailed} && (err == RemoveFailed ==> !removable) && (reliable ==> err == NoError)
      ensures disk.current == old(disk).current && disk.rooted == old(disk).rooted
      ensures Shed(old(candidates), candidates, old(handles)[h].name, err == RemoveFailed && !old(handles)[h].published)
      ensures handles == old(handles) || handles == old(handles)[h := old(handles)[h].(restored := true)]
      ensures forall n :: n != old(handles)[h].name ==> disk.Generation(n) == old(disk).Generation(n)
      ensures err == NoError ==>
        && handles == old(handles)[h := old(handles)[h].(restored := true)]
        && old(handles)[h].name !in candidates
        && (old(handles)[h].published ==> disk.Generation(old(handles)[h].name) == Missing)
      ensures old(Standing()) && h !in trail.stack ==> Standing()
      ensures old(Secure()) && h !in trail.exposed ==> Secure()
      ensures err == NoError && old(handles)[h].published && old(disk).CrashSafe() && To(old(handles)[h].name) in old(disk).links ==>
        !AllSafe(history)
    {
      hide Rest, Tidy, AllSafe, Disk.CrashSafe;
      if Secure() && h !in trail.exposed {
        UnexposedIsUnlinked(disk, handles, bottom, trail, h);
      }
      err := Discard(h);
    }

    /** The restore closure. */
    method Restore(h: nat) returns (err: Error)
      requires Valid() && h < |handles|
      modifies this`disk, this`history, this`candidates, this`handles, this`trail
      ensures (err == Stranded ==> !movable) && (err == Unsynced ==> !resyncable) && (err == RemoveFailed ==> !removable)
      ensures Valid() && old(history) <= history && err != PublishFailed
      ensures (reliable && (old(handles)[h].restored || !old(handles)[h].committed || old(disk).current == To(old(handles)[h].name)))
              ==> err == NoError
      ensures handles == old(handles) || handles == old(handles)[h := old(handles)[h].(restored := true)]
      ensures forall n :: n != old(handles)[h].name ==> disk.Generation(n) == old(disk).Generation(n)
      ensures trail.stranded == old(trail).stranded && trail.exposed == old(trail).exposed
      // A second restore reports success and does nothing.
      ensures old(handles)[h].restored ==>
        && err == NoError && disk == old(disk) && handles == old(handles) && candidates == old(candidates)
        && trail == old(trail) && history == old(history)
      // Only a failed removal of a candidate that was never published leaves a part of it.
      ensures Shed(old(candidates), candidates, old(handles)[h].name, err == RemoveFailed && !old(handles)[h].published)
      // A successful restore returns exactly to the pointer seen at commit, and only from this generation.
      ensures err == NoError && !old(handles)[h].restored ==>
        && handles == old(handles)[h := old(handles)[h].(restored := true)]
        && old(handles)[h].name !in candidates
        && (old(handles)[h].published ==> disk.Generation(old(handles)[h].name) == Missing)
        && (if old(handles)[h].committed
            then old(disk).current == To(old(handles)[h].name) && disk.current == old(handles)[h].previous
            else disk.current == old(disk).current && trail == old(trail))
      // What it reports tells whether the pointer left the generation.
      ensures old(Standing()) && old(handles)[h].committed && !old(handles)[h].restored ==>
        if SteppedAway(err) then old(trail).stack == trail.stack + [h] else trail == old(trail)
      ensures !old(handles)[h].committed ==> trail == old(trail)
      // A generation that is not current is refused, pointer and generations unchanged.
      ensures old(handles)[h].committed && !old(handles)[h].restored && old(disk).current != To(old(handles)[h].name) ==>
        err in {LegacyFailed, ReadFailed, Stale} && disk == old(disk) && handles == old(handles) && candidates == old(candidates)
      // So is one already switched away from: a restore that failed after moving the pointer cannot be retried.
      ensures old(Standing()) && old(handles)[h].committed && !old(handles)[h].restored && h !in old(trail).stack ==>
        err in {LegacyFailed, ReadFailed, Stale} && disk == old(disk)
      ensures disk.current in {old(disk).current, old(handles)[h].previous}
      ensures !old(handles)[h].committed ==> disk.current == old(disk).current && disk.rooted == old(disk).rooted
      ensures old(disk).rooted ==> disk.rooted
      ensures handles[h].restored && !old(handles)[h].restored && handles[h].committed ==>
        disk.current == handles[h].previous
      // The stack survives unless the generation of a stranded handle is discarded.
      ensures old(Standing()) && (old(handles)[h].committed || h !in old(trail).stack) ==> Standing()
      // Crash safety survives unless a link may still name the discarded generation; then it is gone.
      ensures old(Secure()) && (old(handles)[h].committed || h !in old(trail).exposed) ==> Secure()
      ensures (err == NoError && !old(handles)[h].restored && !old(handles)[h].committed && old(handles)[h].published
               && old(disk).CrashSafe() && To(old(handles)[h].name) in old(disk).links)
              ==> !AllSafe(history)
    {
      hide Rest, Tidy, AllSafe, Disk.CrashSafe;
      if handles[h].restored {
        return NoError;
      }
      if handles[h].cleaning {
        var rolledBack := Works();
        if !rolledBack {
          return LegacyFailed;
        }
      }
      if handles[h].committed {
        err := UndoCommitted(h);
      } else {
        err := UndoStaged(h);
      }
    }

    /** SelectRuntimeGeneration: no closure remembers what it replaced. */
    method Select(name: Name) returns (err: Error)
      requires Valid()
      modifies this`disk, this`history, this`trail, this`bottom
      ensures (err == Stranded ==> !movable) && (err == Unsynced ==> !resyncable)
      ensures Valid() && SameEntries(old(disk), disk) && old(history) <= history
      ensures err in {NoError, Refused, Reverted, Unsynced, Stranded}
      ensures old(disk).Generation(name) == Missing ==> err == Refused
      ensures reliable && old(disk).Generation(name) != Missing ==> err == NoError
      ensures err == Refused ==> disk == old(disk)
      ensures disk.current == if err in {NoError, Stranded} then To(name) else old(disk).current
      // Without live closures the runtime keeps standing on a complete generation, and safe on a durable one.
      ensures handles == [] && old(Standing()) ==>
        (Standing() <==> old(disk).Generation(name).Complete? || err !in {NoError, Stranded})
      ensures handles == [] && old(Secure()) ==> (Secure() <==> old(disk).Sound(To(name)) || err == Refused)
    {
      if disk.Generation(name) == Missing {
        return Refused;
      }
      err := Switch(To(name));
      if err != Refused {
        trail := Trail([], {}, {});
        bottom := disk.current;
      }
    }

    /** From here on, history is what follows. */
    ghost method Restart()
      modifies this`history
      ensures history == [disk]
      ensures Sheltered() ==> Secure()
    {
      history := [disk];
      if Sheltered() {
        RestIsSafe(disk, handles, bottom, trail);
      }
    }

    /** The request returns: its closures can no longer be called, and the next one starts a new history. */
    method Forget()
      requires Valid()
      modifies this`candidates, this`handles, this`trail, this`bottom, this`history
      ensures Valid() && handles == [] && bottom == disk.current && candidates == map[]
      ensures Standing() <==> Firm(disk, disk.current, false)
      ensures Secure() <==> disk.CrashSafe()
      ensures old(Secure()) ==> Secure()
    {
      if Secure() {
        RestIsSafe(disk, handles, bottom, trail);
      }
      handles, candidates, bottom := [], map[], disk.current;
      history, trail := [disk], Trail([], {}, {});
    }
  }

  /** One call a caller holding closures can make. */
  datatype Call<C> = Stage(name: Name, contents: C) | Commit(handle: nat) | Restore(handle: nat)

  /** What a caller gets back: the closure's error, or nothing where there was no such handle or no candidate was staged. */
  datatype Report = Nothing | Done(err: Error)

  /** What a caller knows from the calls it made and what they reported. */
  datatype Log = Log(
    names: seq<Name>,       // of the handles it was given
    committed: set<nat>,
    published: set<nat>,    // their candidate was renamed into generations/
    torn: set<nat>,         // their candidate was not published and a removal of it failed
    rooted: bool,           // a switch was synced, and generations/ with it
    trail: Trail)

  /** How one call and its report add to the log. */
  function Note<C>(log: Log, call: Call<C>, report: Report): Log {
    match report
    case Nothing => log
    case Done(err) =>
      match call
      case Stage(name, _) => log.(names := log.names + [name])
      case Commit(h) =>
        if h in log.committed then log
        else log.(
          committed := if err in {NoError, LegacyFailed} then log.committed + {h} else log.committed,
          published := if err == PublishFailed then log.published else log.published + {h},
          rooted := log.rooted || err in {NoError, LegacyFailed, Reverted},
          trail := After(log.trail, h, err))
      case Restore(h) =>
        log.(
          torn := if err == RemoveFailed && h !in log.published then log.torn + {h} else log.torn,
          trail := if h in log.committed && OnTop(log.trail.stack, h) && SteppedAway(err) then Popped(log.trail) else log.trail)
  }

  /** What a call can report: what cannot fail is not reported failed, and a candidate is published once. */
  predicate Possible<C>(log: Log, call: Call<C>, report: Report, movable: bool, resyncable: bool, removable: bool) {
    && (movable ==> report != Done(Stranded))
    && (resyncable ==> report != Done(Unsynced))
    && (removable ==> report != Done(RemoveFailed))
    && match call
       case Stage(_, _) => report in {Nothing, Done(NoError)}
       case Commit(h) =>
         && (report == Nothing <==> h >= |log.names|)
         && report !in {Done(Stale), Done(RemoveFailed)}
         && (h in log.published && h < |log.names| ==> report == Done(if h in log.committed then NoError else PublishFailed))
       case Restore(h) =>
         && (report == Nothing <==> h >= |log.names|)
         && report != Done(PublishFailed)
  }

  predicate OnTop(stack: seq<nat>, h: nat) {
    stack != [] && stack[|stack| - 1] == h
  }

  function Popped(trail: Trail): Trail
    requires trail.stack != []
  {
    trail.(stack := trail.stack[..|trail.stack| - 1])
  }

  /** The log after the first k calls. */
  function Noted<C>(log: Log, calls: seq<Call<C>>, reports: seq<Report>, k: nat): Log
    requires k <= |calls| && k <= |reports|
  {
    if k == 0 then log else Note(Noted(log, calls, reports, k - 1), calls[k - 1], reports[k - 1])
  }

  /** Where a log says that `current` points: at the generation on top, or where it pointed before. */
  function PointerOf(log: Log, bottom: Pointer): Pointer {
    var stack := log.trail.stack;
    if stack == [] then bottom
    else if stack[|stack| - 1] < |log.names| then To(log.names[stack[|stack| - 1]])
    else Absent
  }

  /**
   * A call that keeps the stack: a commit that does not leave the pointer on a
   * candidate whose removal had failed, and a restore of no handle whose commit
   * was stranded.
   */
  predicate KeepsStack<C>(log: Log, call: Call<C>, report: Report) {
    match call
    case Stage(_, _) => true
    case Commit(h) => h in log.committed || h !in log.torn || report !in {Done(NoError), Done(LegacyFailed), Done(Stranded)}
    case Restore(h) => h !in log.trail.stranded
  }

  /**
   * A call that keeps crash safety: a commit that never moves the pointer to a
   * candidate whose removal had failed, or under a generations/ that may be
   * lost, and a restore of no handle whose commit lost the move back or its
   * sync.
   */
  predicate KeepsSafety<C>(log: Log, call: Call<C>, report: Report) {
    match call
    case Stage(_, _) => true
    case Commit(h) => || h in log.committed || (h !in log.torn && log.rooted)
                      || report == Nothing || !Moved(report.err)
    case Restore(h) => h !in log.trail.exposed
  }

  ghost predicate AllKeepStack<C>(log: Log, calls: seq<Call<C>>, reports: seq<Report>, n: nat)
    requires n <= |calls| && n <= |reports|
  {
    forall k | 0 <= k < n :: KeepsStack(Noted(log, calls, reports, k), calls[k], reports[k])
  }

  ghost predicate AllKeepSafety<C>(log: Log, calls: seq<Call<C>>, reports: seq<Report>, n: nat)
    requires n <= |calls| && n <= |reports|
  {
    forall k | 0 <= k < n :: KeepsSafety(Noted(log, calls, reports, k), calls[k], reports[k])
  }

  ghost predicate AllPossible<C>(log: Log, calls: seq<Call<C>>, reports: seq<Report>, n: nat, movable: bool, resyncable: bool, removable: bool)
    requires n <= |calls| && n <= |reports|
  {
    forall k | 0 <= k < n :: Possible(Noted(log, calls, reports, k), calls[k], reports[k], movable, resyncable, removable)
  }

  /** A log agrees with the closures' variables and the disk. */
  ghost predicate Agrees<C>(log: Log, handles: seq<Handle>, candidates: map<Name, Directory<C>>, rooted: bool, trail: Trail) {
    && |log.names| == |handles|
    && (forall i :: 0 <= i < |handles| ==> handles[i].name == log.names[i])
    && (forall i: nat :: i in log.committed <==> i < |handles| && handles[i].committed)
    && (forall i: nat :: i in log.published <==> i < |handles| && handles[i].published)
    && (forall i :: 0 <= i < |handles| && i !in log.torn ==> Whole(candidates, handles[i].name))
    && (log.rooted ==> rooted)
    && log.trail.stranded == trail.stranded && log.trail.exposed == trail.exposed
  }

  /** Nothing is missing from a candidate that is still staged. */
  ghost predicate Whole<C>(candidates: map<Name, Directory<C>>, name: Name) {
    name in candidates ==> candidates[name].Complete?
  }

  lemma AgreesAt<C>(log: Log, handles: seq<Handle>, candidates: map<Name, Directory<C>>, rooted: bool, trail: Trail, h: nat)
    requires Agrees(log, handles, candidates, rooted, trail) && h < |handles|
    requires Tidy(handles, candidates.Keys, trail.stranded, trail.exposed)
    ensures (h in log.committed <==> handles[h].committed) && (h in log.published <==> handles[h].published)
    ensures h !in log.torn ==> Whole(candidates, handles[h].name)
    ensures handles[h].published ==> handles[h].name !in candidates
    ensures |log.names| == |handles| && (log.rooted ==> rooted)
    ensures log.trail.stranded == trail.stranded && log.trail.exposed == trail.exposed
  {
    assert handles[h] in handles;
  }

  lemma StagedAgrees<C>(log: Log, handles: seq<Handle>, candidates: map<Name, Directory<C>>, rooted: bool, trail: Trail, call: Call<C>, entry: Handle)
    requires Agrees(log, handles, candidates, rooted, trail) && call.Stage?
    requires forall e <- handles :: e.name != call.name
    requires entry == Handle(call.name, false, false, false, Absent, false)
    ensures Agrees(Note(log, call, Done(NoError)), handles + [entry], candidates[call.name := Complete(call.contents)], rooted, trail)
  {
  }

  lemma CommittedAgrees<C>(
    log: Log, handles: seq<Handle>, candidates: map<Name, Directory<C>>, rooted: bool, trail: Trail,
    h: nat, err: Error, entry: Handle, left: map<Name, Directory<C>>, later: bool)
    requires Agrees(log, handles, candidates, rooted, trail) && h < |handles| && !handles[h].committed
    requires entry.name == handles[h].name && (entry.committed <==> err in {NoError, LegacyFailed})
    requires if err == PublishFailed then entry == handles[h] && left == candidates
             else entry.published && left == candidates - {entry.name}
    requires (rooted ==> later) && (err in {NoError, LegacyFailed, Reverted} ==> later)
    ensures Agrees(Note<C>(log, Commit(h), Done(err)), handles[h := entry], left, later, After(trail, h, err))
  {
  }

  lemma RestoredAgrees<C>(
    log: Log, handles: seq<Handle>, candidates: map<Name, Directory<C>>, rooted: bool, trail: Trail,
    h: nat, err: Error, after: seq<Handle>, left: map<Name, Directory<C>>, later: bool, next: Trail)
    requires Agrees(log, handles, candidates, rooted, trail) && h < |handles|
    requires Tidy(handles, candidates.Keys, trail.stranded, trail.exposed)
    requires after == handles || after == handles[h := handles[h].(restored := true)]
    requires Shed(candidates, left, handles[h].name, err == RemoveFailed && !handles[h].published)
    requires (rooted ==> later) && next.stranded == trail.stranded && next.exposed == trail.exposed
    ensures Agrees(Note<C>(log, Restore(h), Done(err)), after, left, later, next)
  {
  }

  /** A restored handle is not on top of the stack, and an uncommitted one is on it only if it was stranded. */
  lemma OffStackWhileStanding<C>(disk: Disk<C>, handles: seq<Handle>, bottom: Pointer, trail: Trail, h: nat)
    requires h < |handles|
    ensures Rest(disk, handles, bottom, trail, false) ==>
      && (handles[h].restored ==> !OnTop(trail.stack, h))
      && (!handles[h].committed && h !in trail.stranded ==> h !in trail.stack)
  {
    if Rest(disk, handles, bottom, trail, false) && !handles[h].committed && h !in trail.stranded {
      OffStack(disk.current, handles, trail.stack, bottom, trail.stranded, h);
    }
  }

  /** The log's trail after a restore. */
  lemma RestoredTrail<C>(log: Log, trail: Trail, next: Trail, entry: Handle, h: nat, err: Error)
    requires log.trail == trail && (h in log.committed <==> entry.committed)
    requires next.stranded == trail.stranded && next.exposed == trail.exposed
    requires if entry.committed && !entry.restored && SteppedAway(err) then trail.stack == next.stack + [h] else next == trail
    requires entry.restored ==> !OnTop(trail.stack, h)
    ensures Note<C>(log, Restore(h), Done(err)).trail == next
  {
  }

  /** Where the pointer of a standing runtime is can be read off the log. */
  lemma PointerIsNoted<C>(log: Log, disk: Disk<C>, handles: seq<Handle>, candidates: map<Name, Directory<C>>, bottom: Pointer, trail: Trail)
    requires Agrees(log, handles, candidates, disk.rooted, trail) && log.trail == trail && Rest(disk, handles, bottom, trail, false)
    ensures disk.current == PointerOf(log, bottom)
    ensures disk.current.To? ==> disk.Generation(disk.current.name).Complete?
    ensures Chained(disk.current, handles, trail.stack, bottom, trail.stranded)
  {
  }

  lemma SheltersCurrent<C>(disk: Disk<C>, handles: seq<Handle>, bottom: Pointer, trail: Trail)
    requires Rest(disk, handles, bottom, trail, true)
    ensures disk.Sound(disk.current)
  {
  }

  /** One call of a run; a handle that does not exist is no call. */
  method MakeCall<C(==)>(root: RuntimeRoot<C>, call: Call<C>, ghost log: Log) returns (report: Report)
    requires root.Valid() && Agrees(log, root.handles, root.candidates, root.disk.rooted, root.trail)
    modifies root
    ensures root.Valid() && root.bottom == old(root.bottom)
    ensures Possible(log, call, report, root.movable, root.resyncable, root.removable)
    ensures Agrees(Note(log, call, report), root.handles, root.candidates, root.disk.rooted, root.trail)
    ensures old(root.Standing()) && KeepsStack(log, call, report) ==>
      root.Standing() && (log.trail == old(root.trail) ==> Note(log, call, report).trail == root.trail)
    ensures old(root.Secure()) && KeepsSafety(log, call, report) ==> root.Secure()
  {
    assert |log.names| == |root.handles|;
    hide Rest, AllSafe, Agrees;
    report := Nothing;
    match call
    case Stage(name, contents) =>
      if root.Fresh(name) {
        StagedAgrees(log, root.handles, root.candidates, root.disk.rooted, root.trail, call, Handle(name, false, false, false, Absent, false));
        var ok, _ := root.Stage(name, contents);
        report := if ok then Done(NoError) else Nothing;
      }
    case Commit(h) =>
      if h < |root.handles| {
        report := MakeCommit(root, h, log);
      }
    case Restore(h) =>
      if h < |root.handles| {
        report := MakeRestore(root, h, log);
      }
  }

  method MakeCommit<C(==)>(root: RuntimeRoot<C>, h: nat, ghost log: Log) returns (report: Report)
    requires root.Valid() && Agrees(log, root.handles, root.candidates, root.disk.rooted, root.trail) && h < |root.handles|
    modifies root
    ensures root.Valid() && root.bottom == old(root.bottom)
    ensures Possible<C>(log, Commit(h), report, root.movable, root.resyncable, root.removable)
    ensures Agrees(Note<C>(log, Commit(h), report), root.handles, root.candidates, root.disk.rooted, root.trail)
    ensures old(root.Standing()) && KeepsStack<C>(log, Commit(h), report) ==>
      root.Standing() && (log.trail == old(root.trail) ==> Note<C>(log, Commit(h), report).trail == root.trail)
    ensures old(root.Secure()) && KeepsSafety<C>(log, Commit(h), report) ==> root.Secure()
  {
    hide Rest, AllSafe, Tidy, Agrees;
    ghost var known, staged, rooted, trail := root.handles, root.candidates, root.disk.rooted, root.trail;
    AgreesAt(log, known, staged, rooted, trail, h);
    var err := root.Commit(h);
    report := Done(err);
    if !known[h].committed {
      assert root.handles == known[h := root.handles[h]];
      CommittedAgrees(log, known, staged, rooted, trail, h, err, root.handles[h], root.candidates, root.disk.rooted);
    }
  }

  method MakeRestore<C(==)>(root: RuntimeRoot<C>, h: nat, ghost log: Log) returns (report: Report)
    requires root.Valid() && Agrees(log, root.handles, root.candidates, root.disk.rooted, root.trail) && h < |root.handles|
    modifies root
    ensures root.Valid() && root.bottom == old(root.bottom)
    ensures Possible<C>(log, Restore(h), report, root.movable, root.resyncable, root.removable)
    ensures Agrees(Note<C>(log, Restore(h), report), root.handles, root.candidates, root.disk.rooted, root.trail)
    ensures old(root.Standing()) && h !in log.trail.stranded ==>
      root.Standing() && (log.trail == old(root.trail) ==> Note<C>(log, Restore(h), report).trail == root.trail)
    ensures old(root.Secure()) && h !in log.trail.exposed ==> root.Secure()
  {
    hide Rest, AllSafe, Tidy, Agrees, Shed, Disk.CrashSafe, Note, Moved, SteppedAway, OnTop;
    ghost var known, staged, rooted, trail := root.handles, root.candidates, root.disk.rooted, root.trail;
    AgreesAt(log, known, staged, rooted, trail, h);
    OffStackWhileStanding(root.disk, known, root.bottom, trail, h);
    ghost var standing := root.Standing();
    var err := root.Restore(h);
    report := Done(err);
    if standing && log.trail == trail {
      RestoredTrail<C>(log, trail, root.trail, known[h], h, err);
    }
    RestoredAgrees(log, known, staged, rooted, trail, h, err, root.handles, root.candidates, root.disk.rooted, root.trail);
  }

  /** A later report changes nothing about the log so far. */
  lemma {:induction false} NotedBefore<C>(log: Log, calls: seq<Call<C>>, reports: seq<Report>, report: Report, k: nat)
    requires k <= |reports| < |calls|
    ensures Noted(log, calls, reports + [report], k) == Noted(log, calls, reports, k)
  {
    if k > 0 {
      NotedBefore(log, calls, reports, report, k - 1);
    }
  }

  /** A report adds to the log, and decides about its own call only. */
  lemma NotedNow<C>(log: Log, calls: seq<Call<C>>, reports: seq<Report>, report: Report, movable: bool, resyncable: bool, removable: bool)
    requires |reports| < |calls|
    ensures
      var n, more, now := |reports|, reports + [report], Noted(log, calls, reports, |reports|);
      && Noted(log, calls, more, n + 1) == Note(now, calls[n], report)
      && (AllPossible(log, calls, reports, n, movable, resyncable, removable)
            && Possible(now, calls[n], report, movable, resyncable, removable)
          ==> AllPossible(log, calls, more, n + 1, movable, resyncable, removable))
      && (AllKeepStack(log, calls, more, n + 1) ==> AllKeepStack(log, calls, reports, n) && KeepsStack(now, calls[n], report))
      && (AllKeepSafety(log, calls, more, n + 1) ==> AllKeepSafety(log, calls, reports, n) && KeepsSafety(now, calls[n], report))
  {
    hide Note, KeepsStack, KeepsSafety, Possible;
    var n, more := |reports|, reports + [report];
    forall k | 0 <= k <= n ensures Noted(log, calls, more, k) == Noted(log, calls, reports, k) {
      NotedBefore(log, calls, reports, report, k);
    }
    assert Noted(log, calls, more, n + 1) == Note(Noted(log, calls, more, n), calls[n], more[n]);
    hide Noted;
    assert forall k | 0 <= k < n :: more[k] == reports[k];
    assert more[n] == report;
  }

  lemma NothingNoted<C>(log: Log, calls: seq<Call<C>>, movable: bool, resyncable: bool, removable: bool)
    ensures Noted(log, calls, [], 0) == log && AllPossible(log, calls, [], 0, movable, resyncable, removable)
  {
  }

  /** The calls of a run, one after the other. */
  method MakeCalls<C(==)>(root: RuntimeRoot<C>, calls: seq<Call<C>>, ghost log: Log) returns (reports: seq<Report>)
    requires root.Valid() && root.Standing()
    requires Agrees(log, root.handles, root.candidates, root.disk.rooted, root.trail) && log.trail == root.trail
    modifies root
    ensures root.Valid() && root.bottom == old(root.bottom) && |reports| == |calls|
    ensures AllPossible(log, calls, reports, |calls|, root.movable, root.resyncable, root.removable)
    ensures Agrees(Noted(log, calls, reports, |calls|), root.handles, root.candidates, root.disk.rooted, root.trail)
    ensures AllKeepStack(log, calls, reports, |calls|) ==>
      root.Standing() && Noted(log, calls, reports, |calls|).trail == root.trail
    ensures old(root.Secure()) && AllKeepSafety(log, calls, reports, |calls|) ==> root.Secure()
  {
    hide *;
    ghost var secure := root.Secure();
    reports := [];
    NothingNoted(log, calls, root.movable, root.resyncable, root.removable);
    for n := 0 to |calls|
      invariant root.Valid() && root.bottom == old(root.bottom) && |reports| == n
      invariant AllPossible(log, calls, reports, n, root.movable, root.resyncable, root.removable)
      invariant Agrees(Noted(log, calls, reports, n), root.handles, root.candidates, root.disk.rooted, root.trail)
      invariant AllKeepStack(log, calls, reports, n) ==> root.Standing() && Noted(log, calls, reports, n).trail == root.trail
      invariant secure && AllKeepSafety(log, calls, reports, n) ==> root.Secure()
    {
      ghost var before, now := reports, Noted(log, calls, reports, n);
      var report := MakeCall(root, calls[n], now);
      reports := reports + [report];
      NotedNow(log, calls, before, report, root.movable, root.resyncable, root.removable);
    }
  }

  /**
   * Any interleaving of stages, commits and restores, with any directory
   * operation or sync failing.  While every call keeps the stack, `current` is
   * where the calls and their reports say, which is nowhere or at a complete
   * generation.  While every call keeps safety, every disk state on the way was
   * crash safe as well.
   */
  method AnyRun<C(==)>(root: RuntimeRoot<C>, calls: seq<Call<C>>, ghost log: Log) returns (reports: seq<Report>)
    requires root.Valid() && root.Standing()
    requires Agrees(log, root.handles, root.candidates, root.disk.rooted, root.trail) && log.trail == root.trail
    modifies root
    ensures root.Valid() && root.bottom == old(root.bottom) && |reports| == |calls|
    ensures AllPossible(log, calls, reports, |calls|, root.movable, root.resyncable, root.removable)
    ensures Agrees(Noted(log, calls, reports, |calls|), root.handles, root.candidates, root.disk.rooted, root.trail)
    ensures AllKeepStack(log, calls, reports, |calls|) ==>
      && root.disk.current == PointerOf(Noted(log, calls, reports, |calls|), old(root.bottom))
      && (root.disk.current.To? ==> root.disk.Generation(root.disk.current.name).Complete?)
      && Chained(root.disk.current, root.handles, root.trail.stack, root.bottom, root.trail.stranded)
    ensures old(root.Secure()) && AllKeepSafety(log, calls, reports, |calls|) ==>
      AllSafe(root.history) && root.disk.Sound(root.disk.current)
  {
    hide Rest, Tidy, AllSafe, Agrees, Chained, PointerOf, Noted, AllPossible, AllKeepStack, AllKeepSafety, Disk.Sound;
    ghost var secure := root.Secure();
    reports := MakeCalls(root, calls, log);
    if AllKeepStack(log, calls, reports, |calls|) {
      PointerIsNoted(Noted(log, calls, reports, |calls|), root.disk, root.handles, root.candidates, root.bottom, root.trail);
    }
    if secure && AllKeepSafety(log, calls, reports, |calls|) {
      SheltersCurrent(root.disk, root.handles, root.bottom, root.trail);
    }
  }

  /** The log of a caller that holds no closures yet. */
  function Started(rooted: bool): Log {
    Log([], {}, {}, {}, rooted, Trail([], {}, {}))
  }

  /** No handle is committed after a restore of it. */
  predicate RestoresAreLast<C>(calls: seq<Call<C>>) {
    forall i, j | 0 <= i < j < |calls| && calls[i].Restore? && calls[j].Commit? :: calls[i].handle != calls[j].handle
  }

  /** What is lost or torn was reported so. */
  lemma {:induction false} LossWasReported<C>(log: Log, calls: seq<Call<C>>, reports: seq<Report>, k: nat)
    requires k <= |calls| && k <= |reports|
    ensures forall h | h in Noted(log, calls, reports, k).torn - log.torn ::
      exists j | 0 <= j < k :: calls[j] == Restore(h) && reports[j] == Done(RemoveFailed)
    ensures forall h | h in Noted(log, calls, reports, k).trail.exposed - log.trail.exposed ::
      exists j | 0 <= j < k :: calls[j] == Commit(h) && reports[j] in {Done(Stranded), Done(Unsynced)}
    ensures forall h | h in Noted(log, calls, reports, k).trail.stranded - log.trail.stranded ::
      exists j | 0 <= j < k :: calls[j] == Commit(h) && reports[j] == Done(Stranded)
    ensures log.rooted ==> Noted(log, calls, reports, k).rooted
  {
    if k > 0 {
      LossWasReported(log, calls, reports, k - 1);
    }
  }

  /**
   * A request on a server that has been installed: moving `current` back and
   * syncing that works, and either removals work too or no handle is committed
   * after a restore of it.  Whatever else fails, `current` is where the calls
   * and their reports say, which is nowhere or at a complete generation, and
   * every disk state on the way was crash safe.
   */
  method CleanRun<C(==)>(root: RuntimeRoot<C>, calls: seq<Call<C>>) returns (reports: seq<Report>)
    requires root.Valid() && root.Secure() && root.handles == [] && root.disk.rooted
    requires root.movable && root.resyncable && (root.removable || RestoresAreLast(calls))
    modifies root
    ensures |reports| == |calls|
    ensures root.disk.current == PointerOf(Noted(Started(true), calls, reports, |calls|), old(root.disk.current))
    ensures root.disk.current.To? ==> root.disk.Generation(root.disk.current.name).Complete?
    ensures AllSafe(root.history) && root.disk.Sound(root.disk.current)
  {
    ghost var log := Started(true);
    NothingStarted(root.disk, root.handles, root.candidates, root.bottom, root.trail);
    root.SecureIsStanding();
    hide Rest, AllSafe, Tidy, Agrees;
    reports := AnyRun(root, calls, log);
    CleanCallsKeep(calls, reports, root.movable, root.resyncable, root.removable);
  }

  lemma NothingStarted<C>(disk: Disk<C>, handles: seq<Handle>, candidates: map<Name, Directory<C>>, bottom: Pointer, trail: Trail)
    requires Rest(disk, handles, bottom, trail, true) && handles == [] && disk.rooted
    requires Tidy(handles, candidates.Keys, trail.stranded, trail.exposed)
    ensures trail == Started(true).trail && bottom == disk.current
    ensures Agrees(Started(true), handles, candidates, disk.rooted, trail)
  {
    assert forall i <- trail.exposed :: i < |handles|;
  }

  lemma CleanCallKeeps<C>(calls: seq<Call<C>>, reports: seq<Report>, k: nat, movable: bool, resyncable: bool, removable: bool)
    requires k < |calls| == |reports| && movable && resyncable && (removable || RestoresAreLast(calls))
    requires AllPossible(Started(true), calls, reports, |calls|, movable, resyncable, removable)
    ensures KeepsStack(Noted(Started(true), calls, reports, k), calls[k], reports[k])
    ensures KeepsSafety(Noted(Started(true), calls, reports, k), calls[k], reports[k])
  {
    hide Noted;
    var log := Started(true);
    forall j | 0 <= j < k
      ensures reports[j] !in {Done(Stranded), Done(Unsynced)} && (removable ==> reports[j] != Done(RemoveFailed))
    {
      assert Possible(Noted(log, calls, reports, j), calls[j], reports[j], movable, resyncable, removable);
    }
    hide Possible;
    LossWasReported(log, calls, reports, k);
    var now := Noted(log, calls, reports, k);
    forall h | h in now.torn ensures !removable && calls[k] != Commit(h) {
      assert h in now.torn - log.torn;
    }
    assert now.trail.exposed - log.trail.exposed == now.trail.exposed;
    assert now.trail.stranded - log.trail.stranded == now.trail.stranded;
  }

  /** Where nothing is lost and no torn candidate is committed, every call keeps stack and safety. */
  lemma CleanCallsKeep<C>(calls: seq<Call<C>>, reports: seq<Report>, movable: bool, resyncable: bool, removable: bool)
    requires |reports| == |calls| && movable && resyncable && (removable || RestoresAreLast(calls))
    requires AllPossible(Started(true), calls, reports, |calls|, movable, resyncable, removable)
    ensures AllKeepStack(Started(true), calls, reports, |calls|)
    ensures AllKeepSafety(Started(true), calls, reports, |calls|)
  {
    hide KeepsStack, KeepsSafety, Possible, Noted, RestoresAreLast;
    var log := Started(true);
    forall k | 0 <= k < |calls|
      ensures KeepsStack(Noted(log, calls, reports, k), calls[k], reports[k])
      ensures KeepsSafety(Noted(log, calls, reports, k), calls[k], reports[k])
    {
      CleanCallKeeps(calls, reports, k, movable, resyncable, removable);
    }
  }

  /**
   * A commit followed by a successful restore.  The pointer is back exactly
   * when the commit could move it back, and the runtime was crash safe
   * throughout exactly when the commit neither lost the move back or its sync
   * nor pointed at a half-removed candidate, nor moved the pointer before
   * .manager-runtime was synced with generations/ in it.
   */
  method CommitThenRestore<C(==)>(root: RuntimeRoot<C>, h: nat) returns (committing: Error, restoring: Error)
    requires root.Valid() && root.Secure() && h < |root.handles|
    requires !root.handles[h].committed && !root.handles[h].restored && h !in root.trail.exposed
    modifies root
    ensures root.reliable && old(root.Candidate(root.handles[h].name)).Complete? ==> committing == restoring == NoError
    ensures restoring == NoError ==>
      (root.disk.current == old(root.disk.current) <==> committing != Stranded)
    ensures restoring == NoError && committing == Stranded ==>
      root.disk.current == To(old(root.handles)[h].name) && root.disk.Generation(old(root.handles)[h].name) == Missing
    ensures restoring == NoError ==>
      (AllSafe(root.history) <==>
        && committing !in {Stranded, Unsynced}
        && ((old(root.disk).rooted && old(root.Candidate(root.handles[h].name)).Complete?) || !Moved(committing)))
  {
    hide Rest, Tidy;
    UnexposedIsUnlinked(root.disk, root.handles, root.bottom, root.trail, h);
    RestIsSafe(root.disk, root.handles, root.bottom, root.trail);
    committing := root.Commit(h);
    ghost var upTo := root.history;
    if root.Secure() {
      RestIsSafe(root.disk, root.handles, root.bottom, root.trail);
    }
    restoring := root.Restore(h);
    assert forall d <- upTo :: d in root.history;
  }

  /**
   * A commit after a restore was tried: it is refused when the restore
   * succeeded; after a failed one it may publish what is left of the
   * candidate, and the runtime is then crash safe exactly when all of it is
   * and generations/ cannot be lost.
   */
  method RestoreThenCommit<C(==)>(root: RuntimeRoot<C>, h: nat) returns (restoring: Error, intact: bool, committing: Error)
    requires root.Valid() && root.Secure() && h < |root.handles|
    requires !root.handles[h].published && !root.handles[h].restored
    modifies root
    ensures restoring == NoError ==> committing == PublishFailed
    ensures AllSafe(root.history) <==> (old(root.disk).rooted && intact) || !Moved(committing)
    ensures committing in {NoError, LegacyFailed} && !intact ==>
      root.disk.current == To(old(root.handles)[h].name) && !root.disk.Generation(old(root.handles)[h].name).Complete?
  {
    hide Rest;
    assert h !in root.trail.exposed;
    restoring := root.Restore(h);
    intact := root.Candidate(root.handles[h].name).Complete?;
    committing := root.Commit(h);
  }

  /**
   * The first commit of a new server: it is crash safe exactly when the pointer
   * does not move, but once it has succeeded everything that follows starts
   * from a secure runtime in which generations/ cannot be lost.
   */
  method FirstCommit<C(==)>(root: RuntimeRoot<C>, h: nat) returns (err: Error, ghost safe: bool)
    requires root.Valid() && root.Secure() && !root.disk.rooted && h < |root.handles|
    requires !root.handles[h].committed && root.Candidate(root.handles[h].name).Complete?
    modifies root
    ensures safe <==> !Moved(err)
    ensures err in {NoError, LegacyFailed} ==> root.Valid() && root.Secure() && root.disk.rooted
  {
    hide Rest, Tidy;
    err := root.Commit(h);
    safe := AllSafe(root.history);
    root.Restart();
  }
}
