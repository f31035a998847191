/**
 * Releases of one edge function: versioned trees under .manager, a copy of one
 * of them at the live path, a marker naming that one, and a record of the
 * current and the previous release.  Any file operation may fail, a removal
 * half way.
 */
module FunctionReleases {
  import opened Common
  import opened GoStrings

  /** Hex SHA-256 of the uploaded archive. */
  type Sha = string

  type Bytes = seq<bv8>

  datatype Node =
    | File(data: Bytes)
    | Folder(entries: seq<Entry>)
    | Link(target: string)
    | Device

  datatype Entry = Entry(name: string, node: Node)

  /** No link and no special file anywhere. */
  predicate Plain(n: Node) {
    match n
    case File(_) => true
    case Folder(entries) => forall e | e in entries :: Plain(e.node)
    case Link(_) => false
    case Device => false
  }

  /** copyFunctionTreeContents: entry by entry, refusing what it does not support. */
  function Copy(n: Node): Option<Node> {
    match n
    case File(data) => Some(File(data))
    case Folder(entries) =>
      (match CopyAll(entries)
       case None => None
       case Some(copied) => Some(Folder(copied)))
    case Link(_) => None
    case Device => None
  }

  function CopyAll(entries: seq<Entry>): Option<seq<Entry>> {
    if entries == [] then Some([])
    else
      match Copy(entries[0].node)
      case None => None
      case Some(node) =>
        match CopyAll(entries[1..])
        case None => None
        case Some(rest) => Some([Entry(entries[0].name, node)] + rest)
  }

  /** A copy is made exactly of plain trees, and it is the tree. */
  lemma {:induction false} CopyIsFaithful(n: Node)
    ensures Copy(n) == if Plain(n) then Some(n) else None
  {
    if n.Folder? {
      CopyAllIsFaithful(n.entries);
    }
  }

  lemma {:induction false} CopyAllIsFaithful(entries: seq<Entry>)
    ensures CopyAll(entries) == if forall e | e in entries :: Plain(e.node) then Some(entries) else None
  {
    if entries != [] {
      CopyIsFaithful(entries[0].node);
      CopyAllIsFaithful(entries[1..]);
      assert entries == [entries[0]] + entries[1..];
    }
  }

  /** A directory on disk: complete, or part of a removal that failed. */
  datatype Tree = Whole(node: Node) | Torn

  datatype Release = Release(sha: Sha, operation: string)

  datatype Activation = Activation(current: Release, previous: Option<Release>)

  predicate ValidSha(sha: Sha) {
    |sha| == 64 && forall c | c in sha :: '0' <= c <= '9' || 'a' <= c <= 'f' || 'A' <= c <= 'F'
  }

  /** The 32 bytes of a SHA-256, each as two hex digits. */
  lemma ValidShaIff(sha: Sha)
    ensures ValidSha(sha) <==> |sha| == 2 * 32 && forall i | 0 <= i < |sha| :: HexValue(sha[i]).Some?
  {
    assert forall i | 0 <= i < |sha| :: sha[i] in sha;
  }

  ghost predicate Exists(releases: map<Sha, Tree>, r: Option<Release>) {
    r.Some? ==> r.value.sha in releases && releases[r.value.sha].Whole?
  }

  class FunctionSlot {
    var releases: map<Sha, Tree>
    var live: Option<Tree>
    var active: Option<Sha>
    var current: Option<Release>
    var previous: Option<Release>
    /** Whether no operation on the way forward fails; otherwise each may or may not. */
    const reliable: bool

    /** The live tree is the release the marker names; marked, current and previous releases exist. */
    ghost predicate Good()
      reads this
    {
      && (active.Some? ==> active.value in releases && releases[active.value].Whole?)
      && (live.Some? ==> active.Some? && live.value == releases[active.value])
      && Exists(releases, current)
      && Exists(releases, previous)
    }

    constructor (reliable: bool)
      ensures Good() && this.reliable == reliable
      ensures releases == map[] && live == None && active == None && current == None && previous == None
    {
      releases, live, active, current, previous := map[], None, None, None, None;
      this.reliable := reliable;
    }

    /** Whether an operation works this time. */
    method Works() returns (ok: bool)
      ensures reliable ==> ok
    {
      var lucky: bool := *;
      ok := reliable || lucky;
    }

    /** A release that can be made live. */
    ghost predicate Switchable(sha: Sha)
      reads this
    {
      && ValidSha(sha) && sha in releases && (releases[sha].Whole? ==> Plain(releases[sha].node))
      && (live.Some? ==> Managed())
    }

    /** The live directory belongs to the Manager: its marker names a release that is there. */
    predicate Managed()
      reads this
    {
      active.Some? && ValidSha(active.value) && active.value in releases
    }

    /**
     * switchFunctionDirectory: copy the release aside, swap directories, move
     * the marker.  `removable` says whether removing the new live tree works,
     * should the marker fail; every other operation fails as it likes.
     */
    method Switch(sha: Sha, removable: bool) returns (ok: bool)
      modifies this`live, this`active
      ensures ok ==>
        && ValidSha(sha) && sha in releases
        && live == Some(releases[sha]) && active == Some(sha)
      // Otherwise the marker moved as well, or the live tree is the old one, absent, or a leftover of the new one.
      ensures !ok ==>
        || (sha in releases && active == Some(sha) && live == Some(releases[sha]))
        || (active == old(active) && live in {old(live), None})
        || (!removable && sha in releases && active == old(active) && live in {Some(Torn), Some(releases[sha])})
      // A good state stays good when the undo can be done and the release is whole.
      ensures old(Good()) && removable && (sha in releases ==> releases[sha].Whole?) ==> Good()
      // Where nothing fails, exactly these releases become live.
      ensures (ok ==> old(Switchable(sha))) && (reliable && old(Switchable(sha)) ==> ok)
    {
      if !ValidSha(sha) || sha !in releases {
        return false;
      }
      if live.Some? && !Managed() {
        return false;
      }
      var copied := releases[sha];
      var written := Works();
      if !written {
        return false;
      }
      if copied.Whole? {
        var tree := Copy(copied.node);
        CopyIsFaithful(copied.node);
        if tree.None? {
          return false;
        }
        copied := Whole(tree.value);
      }
      var backup := live;
      if live.Some? {
        var staged := Works();
        if !staged {
          return false;
        }
        live := None;
      }
      var restored: bool := *;
      var swapped := Works();
      if !swapped {
        if restored {
          live := backup;
        }
        return false;
      }
      live := Some(copied);
      var marked := Works();
      if !marked {
        if removable {
          live := if restored then backup else None;
        } else {
          var begun: bool := *;
          live := if begun then Some(Torn) else live;
        }
        return false;
      }
      active := Some(sha);
      ok := Works();
    }

    /** writeManagedFunctionState: a failure before the rename has no effect, one after it has. */
    method WriteState(next: Option<Release>, before: Option<Release>) returns (ok: bool)
      modifies this`current, this`previous
      ensures (ok ==> current == next && previous == before) && (reliable ==> ok)
      ensures (current == next && previous == before) || (current == old(current) && previous == old(previous))
    {
      var renamed := Works();
      if !renamed {
        return false;
      }
      current, previous := next, before;
      ok := Works();
    }

    /** pruneFunctionReleases: every other release is removed, up to the first failure. */
    method Prune(keep: set<Sha>) returns (ok: bool)
      modifies this`releases
      ensures forall sha | sha in keep && sha in old(releases) :: sha in releases && releases[sha] == old(releases)[sha]
      ensures forall sha | sha in releases :: sha in old(releases)
      ensures ok ==> forall sha | sha in releases :: sha in keep || |sha| != 64
      ensures reliable ==> ok
    {
      var entries := set sha | sha in releases && sha !in keep && |sha| == 64;
      var before := releases;
      while entries != {}
        invariant forall sha | sha in entries :: sha in before && sha !in keep
        invariant forall sha | sha in keep && sha in before :: sha in releases && releases[sha] == before[sha]
        invariant forall sha | sha in releases :: sha in before
        invariant forall sha | sha in releases && sha !in keep && |sha| == 64 :: sha in entries
        decreases |entries|
      {
        var sha :| sha in entries;
        var removed := Works();
        if !removed {
          if sha in releases {
            releases := releases[sha := Torn];
          }
          return false;
        }
        releases := releases - {sha};
        entries := entries - {sha};
      }
      ok := true;
    }

    /** ActivateFunctionRelease. */
    method Activate(sha: Sha, operation: string, tree: Node, removable: bool) returns (result: Option<Activation>)
      modifies this
      ensures old(Good()) && (removable || result.Some?) ==> Good()
      ensures result.Some? ==>
        && current == Some(result.value.current) && previous == result.value.previous
        && result.value.current.sha == sha && active == Some(sha) && sha in releases && live == Some(releases[sha])
      // A new release becomes current, what was current becomes previous, and both are kept.
      ensures result.Some? && sha !in old(releases) ==>
        && result.value.current == Release(sha, operation)
        && releases[sha] == Whole(tree) && previous == old(current)
        && (old(current).Some? && old(current).value.sha in old(releases) ==>
              var kept := old(current).value.sha;
              kept in releases && releases[kept] == old(releases)[kept])
      // The same release again only repairs the live tree.
      ensures sha in old(releases) ==>
        releases == old(releases) && current == old(current) && previous == old(previous)
      // A release that is kept but not current is refused, live tree and marker unchanged.
      ensures sha in old(releases) && !(old(current).Some? && old(current).value.sha == sha) ==>
        result.None? && live == old(live) && active == old(active)
      // Where nothing fails a plain new tree becomes the release, and only the two releases on record are kept.
      ensures reliable && sha !in old(releases) ==>
        && (result.Some? <==> ValidSha(sha) && Plain(tree) && (old(live).Some? ==> old(Managed()) || old(active) == Some(sha)))
        && (result.Some? ==> forall s | s in releases && |s| == 64 :: s == sha || (old(current).Some? && s == old(current).value.sha))
      // Whatever fails, the releases on record are not pruned.
      ensures result.None? ==> forall s | s in old(releases) :: s in releases && releases[s] == old(releases)[s]
    {
      hide Plain, ValidSha;
      if sha in releases {
        if current.Some? && current.value.sha == sha {
          var repaired := Switch(sha, removable);
          var synced := Works();
          if !repaired || !synced {
            return None;
          }
          return Some(Activation(current.value, previous));
        }
        return None;
      }
      var published := Works();
      if !published {
        return None;
      }
      releases := releases[sha := Whole(tree)];
      if live.Some? && !Managed() {
        var removed: bool, begun: bool := *, *;
        releases := if removed then releases - {sha} else if begun then releases[sha := Torn] else releases;
        return None;
      }
      var switched := Switch(sha, removable);
      if !switched {
        return None;
      }
      var synced := Works();
      if !synced {
        return None;
      }
      var before := current;
      var release := Release(sha, operation);
      var recorded := WriteState(Some(release), before);
      if !recorded {
        return None;
      }
      var _ := Prune({sha} + if before.Some? then {before.value.sha} else {});
      result := Some(Activation(release, before));
    }

    /** RollbackFunctionRelease: current and previous change places. */
    method Rollback(operation: string, removable: bool) returns (result: Option<Activation>)
      modifies this`live, this`active, this`current, this`previous
      ensures old(Good()) && (removable || result.Some?) ==> Good()
      ensures reliable ==>
        (result.Some? <==>
          && old(current).Some? && old(previous).Some?
          && old(Switchable(previous.value.sha)) && releases[old(previous).value.sha].Whole?)
      ensures result.Some? ==>
        && old(current).Some? && old(previous).Some?
        && current == old(previous) && previous == old(current)
        && result.value == Activation(current.value, previous)
        && active == Some(current.value.sha) && current.value.sha in releases && live == Some(releases[current.value.sha])
    {
      if current.None? || previous.None? {
        return None;
      }
      var sha := previous.value.sha;
      var readable := Works();
      if !readable || sha !in releases || releases[sha].Torn? {
        return None;
      }
      var switched := Switch(sha, removable);
      var synced := Works();
      if !switched || !synced {
        return None;
      }
      var next, before := previous, current;
      var recorded := WriteState(next, before);
      if recorded {
        result := Some(Activation(next.value, before));
      } else {
        result := None;
      }
    }

    /** RestoreFunctionRelease: undoes an activation, keeping a good state exactly when both its releases are still there. */
    method Restore(a: Activation, removable: bool) returns (ok: bool)
      modifies this`live, this`active, this`current, this`previous
      ensures ok ==>
        && a.previous.Some? && current == a.previous && previous == Some(a.current)
        && active == Some(a.previous.value.sha) && a.previous.value.sha in releases && live == Some(releases[a.previous.value.sha])
      ensures reliable ==> (ok <==> a.previous.Some? && old(Switchable(a.previous.value.sha)))
      ensures ok && old(Good()) ==> (Good() <==> Exists(releases, a.previous) && Exists(releases, Some(a.current)))
      ensures old(Good()) && removable && Exists(releases, a.previous) && Exists(releases, Some(a.current)) ==> Good()
    {
      if a.previous.None? {
        return false;
      }
      ok := Switch(a.previous.value.sha, removable);
      var synced := Works();
      if !ok || !synced {
        return false;
      }
      ok := WriteState(a.previous, Some(a.current));
    }

    /** DeleteFunction: the live tree first, then everything the Manager keeps of the function. */
    method Delete(removable: bool) returns (ok: bool)
      modifies this
      ensures old(Good()) && removable ==> Good()
      ensures ok ==> live == None && active == None && current == None && previous == None && releases == map[]
      // Refused up front, nothing is touched; with working removals a deletion that starts also ends.
      ensures old(current).None? || (old(live).Some? && !old(Managed())) ==>
        !ok && live == old(live) && active == old(active) && current == old(current) && previous == old(previous) && releases == old(releases)
      ensures removable && old(current).Some? && (old(live).Some? ==> old(Managed())) ==> ok
    {
      if current.None? {
        return false;
      }
      if live.Some? {
        if !Managed() {
          return false;
        }
        var removed: bool, begun: bool := *, *;
        if !removable && !removed {
          live := if begun then Some(Torn) else live;
          return false;
        }
        live := None;
      }
      var cleared: bool := *;
      if removable || cleared {
        releases, active, current, previous := map[], None, None, None;
        return true;
      }
      releases, active, current, previous := *, *, *, *;
      ok := false;
    }
  }

  /** One call; `removable` says whether removals of whole directories work during it. */
  datatype Call =
    | Activate(sha: Sha, operation: string, tree: Node, removable: bool)
    | Rollback(operation: string, removable: bool)
    | RestoreLatest(removable: bool)
    | Delete(removable: bool)

  /**
   * Every run of activations, rollbacks, deletions and restores of the latest
   * activation, with any file operation failing but the removals that undo a
   * call or delete a function: the live tree is the marked release, and the
   * marked, current and previous releases are there.
   */
  method AnyRun(slot: FunctionSlot, calls: seq<Call>)
    requires slot.Good()
    modifies slot
    ensures (forall c | c in calls :: c.removable) ==> slot.Good()
  {
    var latest: Option<Activation> := None;
    for k := 0 to |calls|
      invariant (forall i | 0 <= i < k :: calls[i].removable) ==>
        && slot.Good()
        && (latest.Some? ==> Exists(slot.releases, Some(latest.value.current)) && Exists(slot.releases, latest.value.previous))
    {
      match calls[k]
      case Activate(sha, operation, tree, removable) =>
        latest := slot.Activate(sha, operation, tree, removable);
      case Rollback(operation, removable) =>
        var _ := slot.Rollback(operation, removable);
        latest := None;
      case RestoreLatest(removable) =>
        if latest.Some? {
          var _ := slot.Restore(latest.value, removable);
          latest := None;
        }
      case Delete(removable) =>
        var _ := slot.Delete(removable);
        latest := None;
    }
  }

  /** Two successful rollbacks cancel. */
  method RollbackTwice(slot: FunctionSlot, first: string, second: string, removable: bool) returns (done: bool)
    modifies slot
    ensures slot.releases == old(slot.releases)
    ensures done ==> slot.current == old(slot.current) && slot.previous == old(slot.previous)
    ensures done && old(slot.Good()) && old(slot.live).Some? && old(slot.current).Some? && old(slot.active) == Some(old(slot.current).value.sha) ==>
      slot.live == old(slot.live) && slot.active == old(slot.active)
  {
    var a := slot.Rollback(first, removable);
    if a.None? {
      return false;
    }
    var b := slot.Rollback(second, removable);
    done := b.Some?;
  }
}
