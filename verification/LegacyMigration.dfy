/**
 * Migration of the compatibility files an older version left in a server's
 * root directory: commit moves them into a quarantine and deletes it, restore
 * brings them back, from the quarantine or from the copies kept in memory.
 * Any move, sync or removal may fail, a removal half way.
 */
module LegacyMigration {
  import opened Common

  type Bytes = seq<bv8>

  datatype Entry =
    | Regular(data: Bytes, mode: bv16)
    | Symlink(target: string)
    | Other(kind: nat)

  /** What is kept in memory of a moved file. */
  datatype Backup = Backup(data: Bytes, target: string, mode: bv16, symlink: bool)

  const LEGACY_NAMES: seq<string> := ["docker-compose.yml", ".env", ".env.functions"]

  predicate Migrates(e: Entry) {
    e.Regular? || e.Symlink?
  }

  function BackupOf(e: Entry): Backup
    requires Migrates(e)
  {
    match e
    case Regular(data, mode) => Backup(data, "", mode, false)
    case Symlink(target) => Backup([], target, 0x1FF, true)
  }

  function Revive(b: Backup): Entry {
    if b.symlink then Symlink(b.target) else Regular(b.data, b.mode)
  }

  /** A moved file that is not back yet, with every way back intact. */
  ghost predicate Away(original: map<string, Entry>, root: map<string, Entry>, quarantine: map<string, Entry>, backups: map<string, Backup>, name: string) {
    && name in original && Migrates(original[name]) && name !in root
    && name in backups && backups[name] == BackupOf(original[name])
    && (name in quarantine ==> quarantine[name] == original[name])
  }

  ghost predicate InPlace(original: map<string, Entry>, root: map<string, Entry>, quarantine: map<string, Entry>, name: string) {
    SameAt(original, root, name) && name !in quarantine
  }

  /** Nothing is lost: each entry is where it was, or moved and recoverable. */
  ghost predicate Recoverable(original: map<string, Entry>, root: map<string, Entry>, quarantine: map<string, Entry>, backups: map<string, Backup>, moved: seq<string>) {
    forall name: string {:trigger InPlace(original, root, quarantine, name)} ::
      InPlace(original, root, quarantine, name)
      || (name in moved && Away(original, root, quarantine, backups, name))
  }

  lemma NoneAwayMeansSame(original: map<string, Entry>, root: map<string, Entry>, quarantine: map<string, Entry>, backups: map<string, Backup>, moved: seq<string>)
    requires Recoverable(original, root, quarantine, backups, moved)
    requires forall name <- moved :: name in root
    ensures root == original
  {
    forall name: string ensures SameAt(original, root, name) {
      assert InPlace(original, root, quarantine, name) || name in root;
    }
    assert forall name: string :: SameAt(original, root, name);
    assert root.Keys == original.Keys by {
      forall name: string ensures name in root <==> name in original {
        assert SameAt(original, root, name);
      }
    }
    forall name | name in root ensures root[name] == original[name] {
      assert SameAt(original, root, name);
    }
  }

  /** The compatibility names that hold a file or a link. */
  method IdentifyLegacyFiles(root: map<string, Entry>) returns (names: seq<string>)
    ensures forall name :: name in names <==>
      name in root && name in ["docker-compose.yml", ".env", ".env.functions"] && (root[name].Regular? || root[name].Symlink?)
    ensures forall name :: name in names ==> name in LEGACY_NAMES && Migrates(root[name])
    ensures forall i, j :: 0 <= i < j < |names| ==> names[i] != names[j]
  {
    names := [];
    for k := 0 to |LEGACY_NAMES|
      invariant forall name :: name in names <==> name in LEGACY_NAMES[..k] && name in root && Migrates(root[name])
      invariant forall i, j :: 0 <= i < j < |names| ==> names[i] != names[j]
    {
      var name := LEGACY_NAMES[k];
      assert name !in LEGACY_NAMES[..k];
      assert LEGACY_NAMES[..k + 1] == LEGACY_NAMES[..k] + [name];
      if name in root && Migrates(root[name]) {
        names := names + [name];
      }
    }
    assert LEGACY_NAMES[..|LEGACY_NAMES|] == LEGACY_NAMES;
  }

  /** Keeping one more copy, or moving the copied file to the quarantine, loses nothing. */
  lemma MovedAway(original: map<string, Entry>, root: map<string, Entry>, quarantine: map<string, Entry>, backups: map<string, Backup>, moved: seq<string>, name: string)
    requires Recoverable(original, root, quarantine, backups, moved)
    requires name !in moved && name in root && Migrates(root[name])
    ensures name in original && original[name] == root[name]
    ensures Recoverable(original, root, quarantine, backups[name := BackupOf(root[name])], moved)
    ensures Recoverable(original, root - {name}, quarantine[name := root[name]], backups[name := BackupOf(root[name])], moved + [name])
  {
    assert InPlace(original, root, quarantine, name);
    var kept := backups[name := BackupOf(root[name])];
    var left, held := root - {name}, quarantine[name := root[name]];
    forall n: string
      ensures InPlace(original, root, quarantine, n) || (n in moved && Away(original, root, quarantine, kept, n))
      ensures InPlace(original, left, held, n) || (n in moved + [name] && Away(original, left, held, kept, n))
    {
      assert InPlace(original, root, quarantine, n) || (n in moved && Away(original, root, quarantine, backups, n));
    }
  }

  class LegacyCleanup {
    /** The server's root directory and the quarantine under .manager-runtime. */
    var root: map<string, Entry>
    var quarantine: map<string, Entry>
    var prepared: bool
    var moved: seq<string>
    var backups: map<string, Backup>
    var finalized: bool
    var rolledBack: bool
    /** Whether no operation fails; otherwise each may or may not. */
    const reliable: bool

    /** The root directory before the migration. */
    ghost const original: map<string, Entry>

    ghost predicate Valid()
      reads this
    {
      && Recoverable(original, root, quarantine, backups, moved)
      && (forall name <- moved :: name in LEGACY_NAMES && name in backups && name in original && Migrates(original[name]))
      && (finalized ==> quarantine == map[] && forall name :: name in backups ==> name in moved)
      && (rolledBack ==> root == original)
    }

    constructor (directory: map<string, Entry>, reliable: bool)
      ensures Valid() && original == directory == root && this.reliable == reliable
      ensures moved == [] && backups == map[] && quarantine == map[] && !finalized && !rolledBack && !prepared
    {
      root, quarantine, prepared := directory, map[], false;
      moved, backups, finalized, rolledBack := [], map[], false, false;
      original := directory;
      this.reliable := reliable;
    }

    /** Whether an operation works this time. */
    method Works() returns (ok: bool)
      ensures reliable ==> ok
    {
      var lucky: bool := *;
      ok := reliable || lucky;
    }

    /** RemoveAll on the quarantine: a failure may have removed any part of it. */
    method RemoveQuarantine() returns (ok: bool)
      requires Valid()
      modifies this`quarantine
      ensures Valid()
      ensures (ok ==> quarantine == map[]) && (reliable ==> ok)
    {
      ok := Works();
      if ok {
        quarantine := map[];
      } else {
        var gone: set<string> := *;
        quarantine := quarantine - gone;
      }
      Shrunk(original, root, old(quarantine), quarantine, backups, moved);
    }

    /** Puts one moved file back from its copy unless something is there. */
    method RestoreBackup(name: string) returns (ok: bool)
      requires Valid() && name in moved && name !in quarantine
      modifies this`root
      ensures Valid()
      ensures (ok ==> name in root) && (reliable ==> ok)
      ensures forall n :: n in old(root) ==> n in root
    {
      if name in root {
        return true;
      }
      ok := Works();
      if ok {
        Returned(original, root, quarantine, backups, moved, name);
        root := root[name := Revive(backups[name])];
      }
    }

    /** Moves one file back out of the quarantine, or rebuilds it when the quarantine lost it. */
    method MoveBack(name: string) returns (ok: bool)
      requires Valid() && name in moved
      modifies this`root, this`quarantine
      ensures Valid()
      ensures (ok ==> name in root) && (reliable ==> ok)
      ensures forall n :: n in old(root) ==> n in root
    {
      if name !in quarantine {
        ok := RestoreBackup(name);
        return;
      }
      assert !InPlace(original, root, quarantine, name);
      if name in root {
        return false;
      }
      ok := Works();
      if ok {
        Returned(original, root, quarantine, backups, moved, name);
        root, quarantine := root[name := quarantine[name]], quarantine - {name};
      }
    }

    /** Undoes the migration, however far it got; may be repeated. */
    method Rollback() returns (ok: bool)
      requires Valid()
      modifies this`root, this`quarantine, this`rolledBack
      ensures Valid()
      ensures ok ==> rolledBack && root == original
      ensures reliable ==> ok
      ensures old(rolledBack) ==> ok && root == old(root) && quarantine == old(quarantine)
    {
      if rolledBack {
        return true;
      }
      if finalized {
        for k := 0 to |LEGACY_NAMES|
          invariant Valid() && !rolledBack
          invariant forall name :: name in moved && name in LEGACY_NAMES[..k] ==> name in root
        {
          var name := LEGACY_NAMES[k];
          assert LEGACY_NAMES[..k + 1] == LEGACY_NAMES[..k] + [name];
          if name in backups {
            var restored := RestoreBackup(name);
            if !restored {
              return false;
            }
          }
        }
        assert LEGACY_NAMES[..|LEGACY_NAMES|] == LEGACY_NAMES;
        var synced := Works();
        if !synced {
          return false;
        }
        NoneAwayMeansSame(original, root, quarantine, backups, moved);
        rolledBack := true;
        return true;
      }
      var failed, index := false, |moved|;
      while index > 0
        invariant 0 <= index <= |moved|
        invariant Valid() && !rolledBack
        invariant !failed ==> forall i :: index <= i < |moved| ==> moved[i] in root
        invariant reliable ==> !failed
      {
        index := index - 1;
        var restored := MoveBack(moved[index]);
        failed := failed || !restored;
      }
      if failed {
        return false;
      }
      if prepared {
        var removed := RemoveQuarantine();
        if !removed {
          return false;
        }
      }
      var project := Works();
      if !project {
        return false;
      }
      var runtime := Works();
      if !runtime {
        return false;
      }
      NoneAwayMeansSame(original, root, quarantine, backups, moved);
      rolledBack := true;
      return true;
    }

    /** Moves the named files that are there into the quarantine; stops at the first failure. */
    method MoveAside(names: seq<string>) returns (ok: bool)
      requires Valid() && moved == [] && backups == map[] && !finalized && !rolledBack
      requires forall i :: 0 <= i < |names| ==> names[i] in LEGACY_NAMES
      requires forall i, j :: 0 <= i < j < |names| ==> names[i] != names[j]
      modifies this`root, this`quarantine, this`moved, this`backups
      ensures Valid()
      ensures ok ==> forall name :: name in names && name in original && Migrates(original[name]) ==> name in moved
      ensures reliable ==> ok
      ensures forall name <- moved :: name in names && name !in root
      ensures ok ==> forall name :: name in backups ==> name in moved
      ensures moved == [] ==> root == original && quarantine == map[]
    {
      AllInPlace(original, root, quarantine, backups);
      for k := 0 to |names|
        invariant Valid()
        invariant forall name <- moved :: name in names[..k] && name !in root
        invariant forall name :: name in backups ==> name in moved
        invariant forall i :: 0 <= i < k && names[i] in original && Migrates(original[names[i]]) ==> names[i] in moved
        invariant moved == [] ==> root == original && quarantine == map[]
      {
        var name := names[k];
        assert name !in moved;
        assert InPlace(original, root, quarantine, name);
        var inspected := Works();
        if name !in root {
          continue;
        }
        if !inspected {
          return false;
        }
        if !Migrates(root[name]) {
          continue;
        }
        var readable := Works();
        if !readable {
          return false;
        }
        MovedAway(original, root, quarantine, backups, moved, name);
        backups := backups[name := BackupOf(root[name])];
        var renamed := Works();
        if !renamed {
          return false;
        }
        root, quarantine := root - {name}, quarantine[name := root[name]];
        moved := moved + [name];
      }
      ok := true;
    }

    /** The tail of the migration: both sides of the moves are synced, then the quarantine is deleted. */
    method DeleteQuarantine() returns (ok: bool)
      requires Valid()
      modifies this`quarantine
      ensures Valid()
      ensures (ok ==> quarantine == map[]) && (reliable ==> ok)
    {
      for step := 0 to 3
        invariant Valid()
      {
        var synced := Works();
        if !synced {
          return false;
        }
      }
      ok := RemoveQuarantine();
      if ok {
        ok := Works();
      }
    }

    /** The migration a commit runs after publishing its generation; a failure tries to undo it. */
    method Cleanup(names: seq<string>) returns (ok: bool)
      requires Valid() && root == original && moved == [] && backups == map[]
      requires !prepared && !finalized && !rolledBack
      requires forall i :: 0 <= i < |names| ==> names[i] in LEGACY_NAMES
      requires forall i, j :: 0 <= i < j < |names| ==> names[i] != names[j]
      modifies this
      ensures Valid()
      ensures ok ==> finalized && !rolledBack && quarantine == map[]
      ensures reliable ==> ok
      // Success removes exactly the named files and links, and nothing else.
      ensures ok ==> forall name ::
        if name in names && name in original && Migrates(original[name]) then name !in root
        else SameAt(original, root, name)
      // A failure either undid everything or left it to a later restore.
      ensures !ok ==> rolledBack || !finalized
      ensures forall name :: name !in LEGACY_NAMES ==> SameAt(original, root, name)
    {
      AllInPlace(original, root, quarantine, backups);
      if names == [] {
        finalized := true;
        return true;
      }
      var created := Works();
      if !created {
        return false;
      }
      prepared := true;
      ok := MoveAside(names);
      if ok && moved == [] {
        ok := RemoveQuarantine();
        finalized := ok;
        Untouched();
        return;
      }
      if ok {
        ok := DeleteQuarantine();
      }
      if ok {
        finalized := true;
        Untouched();
      } else {
        var _ := Rollback();
        Untouched();
      }
    }

    lemma Untouched()
      requires Valid()
      ensures forall name :: name !in moved ==> SameAt(original, root, name)
      ensures forall name :: name !in LEGACY_NAMES ==> SameAt(original, root, name)
    {
      forall name | name !in moved ensures SameAt(original, root, name) {
        assert InPlace(original, root, quarantine, name);
      }
    }
  }

  lemma AllInPlace(original: map<string, Entry>, root: map<string, Entry>, quarantine: map<string, Entry>, backups: map<string, Backup>)
    requires Recoverable(original, root, quarantine, backups, [])
    ensures root == original && quarantine == map[]
  {
    NoneAwayMeansSame(original, root, quarantine, backups, []);
    forall name: string ensures name !in quarantine {
      assert InPlace(original, root, quarantine, name);
    }
  }

  lemma Shrunk(original: map<string, Entry>, root: map<string, Entry>, before: map<string, Entry>, after: map<string, Entry>, backups: map<string, Backup>, moved: seq<string>)
    requires Recoverable(original, root, before, backups, moved)
    requires forall n :: n in after ==> n in before && after[n] == before[n]
    ensures Recoverable(original, root, after, backups, moved)
  {
    forall name: string
      ensures InPlace(original, root, after, name) || (name in moved && Away(original, root, after, backups, name))
    {
      assert InPlace(original, root, before, name) || Away(original, root, before, backups, name);
    }
  }

  lemma Returned(original: map<string, Entry>, root: map<string, Entry>, quarantine: map<string, Entry>, backups: map<string, Backup>, moved: seq<string>, name: string)
    requires Recoverable(original, root, quarantine, backups, moved)
    requires name in moved && name !in root && name in backups && name in original
    ensures Recoverable(original, root[name := original[name]], quarantine - {name}, backups, moved)
    ensures Revive(backups[name]) == original[name]
    ensures name in quarantine ==> quarantine[name] == original[name]
    ensures name !in quarantine ==> quarantine - {name} == quarantine
  {
    assert !InPlace(original, root, quarantine, name);
    assert Away(original, root, quarantine, backups, name);
    var after, back := quarantine - {name}, root[name := original[name]];
    forall n: string
      ensures InPlace(original, back, after, n) || (n in moved && Away(original, back, after, backups, n))
    {
      assert InPlace(original, root, quarantine, n) || Away(original, root, quarantine, backups, n);
    }
  }

  /**
   * All or nothing: whatever the commit did and however often restore was
   * tried before, a restore that reports success has put the root directory
   * back exactly, and trying again changes nothing.
   */
  method CommitThenRestore(directory: map<string, Entry>, attempts: nat, reliable: bool) returns (committed: bool, restored: bool, after: map<string, Entry>)
    // Where nothing fails, the commit succeeds and the first restore does.
    ensures reliable ==> committed && (restored <==> attempts > 0)
    ensures restored ==> after == directory
    ensures forall name :: name !in LEGACY_NAMES ==> SameAt(directory, after, name)
    ensures !restored && committed && attempts == 0 ==>
      forall name :: name in after <==>
        name in directory && (name !in ["docker-compose.yml", ".env", ".env.functions"] || directory[name].Other?)
  {
    var names := IdentifyLegacyFiles(directory);
    var cleanup := new LegacyCleanup(directory, reliable);
    committed := cleanup.Cleanup(names);
    restored := cleanup.rolledBack;
    for k := 0 to attempts
      invariant cleanup.Valid() && cleanup.original == directory && cleanup.reliable == reliable
      invariant reliable ==> (restored <==> k > 0)
      invariant restored ==> cleanup.rolledBack
      invariant k == 0 && !restored && committed ==>
        forall name :: name in cleanup.root <==> name in directory && name !in names
    {
      var again := cleanup.Rollback();
      assert restored ==> again;
      restored := again;
    }
    cleanup.Untouched();
    after := cleanup.root;
  }
}
