/**
 * Installing and removing one project's site in the host's nginx: the site
 * file, the link that enables it and its credential file are changed, nginx
 * checks and reloads, and a failure at any point puts the snapshot back.
 */
module NginxSite {
  import opened Common

  datatype Entry = Regular(data: string, mode: nat) | Link(target: string) | Other

  type Directory = map<string, Entry>

  /** Everything nginx loads. */
  datatype Files = Files(available: Directory, enabled: Directory, credentials: Directory)

  /** What Apply is given; an empty credential name means the site has none. */
  datatype Rendered = Rendered(name: string, contents: string, authName: string, authContents: string, authDirectoryMatches: bool)

  /** How a call ended: done, refused up front, undone after a failure, or left half undone. */
  datatype Result = Done | Rejected | Undone | Broken

  const FILE_MODE := 0x1A4 // 0644

  const PREFIX := "supabase-manager-"
  const SITE := ".conf"
  const CREDENTIAL := ".htpasswd"

  predicate SlugChar(c: char) {
    'a' <= c <= 'z' || '0' <= c <= '9' || c == '-'
  }

  /** A managed file name with the given ending. */
  predicate ManagedName(name: string, ending: string) {
    && |PREFIX| + |ending| < |name| <= |PREFIX| + |ending| + 63
    && name[..|PREFIX|] == PREFIX && name[|name| - |ending|..] == ending
    && name[|PREFIX|] != '-'
    && forall i | |PREFIX| <= i < |name| - |ending| :: SlugChar(name[i])
  }

  /** A managed name is the prefix, a slug and the ending; a slug has 1 to 63 of a-z, 0-9 and -, the first no -. */
  lemma ManagedNameIff(name: string, ending: string)
    ensures ManagedName(name, ending) <==>
      exists slug: string :: name == PREFIX + slug + ending && Slug(slug)
  {
    if ManagedName(name, ending) {
      var slug := name[|PREFIX|..|name| - |ending|];
      assert name == PREFIX + slug + ending;
      assert Slug(slug);
    }
    forall slug: string | name == PREFIX + slug + ending && Slug(slug) ensures ManagedName(name, ending) {
      assert name[|PREFIX|..] == slug + ending;
      forall i | |PREFIX| <= i < |name| - |ending| ensures SlugChar(name[i]) {
        assert name[i] == slug[i - |PREFIX|] && slug[i - |PREFIX|] in slug;
      }
    }
  }

  predicate Slug(slug: string) {
    1 <= |slug| <= 63 && slug[0] != '-' && forall c | c in slug :: 'a' <= c <= 'z' || '0' <= c <= '9' || c == '-'
  }

  function CredentialOf(site: string): string
    requires |site| >= |SITE|
  {
    site[..|site| - |SITE|] + CREDENTIAL
  }

  /** The credential name derived from a managed site name is a managed credential name. */
  lemma CredentialIsManaged(site: string)
    requires ManagedName(site, SITE)
    ensures ManagedName(CredentialOf(site), CREDENTIAL)
  {
  }

  /** Two file sets agree outside one site and one credential. */
  ghost predicate OnlyAt(a: Files, b: Files, site: string, auth: string) {
    && (forall n: string {:trigger SameAt(a.available, b.available, n)} :: n != site ==> SameAt(a.available, b.available, n))
    && (forall n: string {:trigger SameAt(a.enabled, b.enabled, n)} :: n != site ==> SameAt(a.enabled, b.enabled, n))
    && (forall n: string {:trigger SameAt(a.credentials, b.credentials, n)} :: n != auth || auth == "" ==> SameAt(a.credentials, b.credentials, n))
  }

  lemma OnlyAtChains(a: Files, b: Files, c: Files, site: string, auth: string)
    requires OnlyAt(a, b, site, auth) && OnlyAt(b, c, site, auth)
    ensures OnlyAt(a, c, site, auth)
  {
    forall n: string | n != site ensures SameAt(a.available, c.available, n) && SameAt(a.enabled, c.enabled, n) {
      assert SameAt(a.available, b.available, n) && SameAt(b.available, c.available, n);
      assert SameAt(a.enabled, b.enabled, n) && SameAt(b.enabled, c.enabled, n);
    }
    forall n: string | n != auth || auth == "" ensures SameAt(a.credentials, c.credentials, n) {
      assert SameAt(a.credentials, b.credentials, n) && SameAt(b.credentials, c.credentials, n);
    }
  }

  /** Agreement outside the site and at the site is agreement. */
  lemma AgreeEverywhere(a: Files, b: Files, site: string, auth: string)
    requires OnlyAt(a, b, site, auth)
    requires SameAt(a.available, b.available, site) && SameAt(a.enabled, b.enabled, site)
    requires auth != "" ==> SameAt(a.credentials, b.credentials, auth)
    ensures a == b
  {
    SameDirectory(a.available, b.available);
    SameDirectory(a.enabled, b.enabled);
    SameDirectory(a.credentials, b.credentials);
  }

  lemma SameDirectory(a: Directory, b: Directory)
    requires forall n: string :: SameAt(a, b, n)
    ensures a == b
  {
    assert forall n: string :: SameAt(a, b, n) ==> (n in a <==> n in b);
  }

  /** Writes and syncs: a failure may come before or after the new file is in place.  `works` says that it cannot fail. */
  method WriteAtomic(dir: Directory, name: string, e: Entry, works: bool) returns (ok: bool, next: Directory)
    ensures works ==> ok
    ensures ok ==> next == dir[name := e]
    ensures !ok ==> next == dir || next == dir[name := e]
  {
    var renamed: bool, synced: bool := *, *;
    ok := works || (renamed && synced);
    next := if ok || renamed then dir[name := e] else dir;
  }

  method RemoveIfPresent(dir: Directory, name: string, works: bool) returns (ok: bool, next: Directory)
    ensures works ==> ok
    ensures ok ==> next == dir - {name}
    ensures !ok ==> next == dir
  {
    var removed: bool := *;
    ok := works || removed;
    next := if ok then dir - {name} else dir;
  }

  /** snapshotFile / snapshotLink: absent, or of the expected kind, or an error. */
  method Inspect(dir: Directory, name: string, link: bool, works: bool) returns (ok: bool, entry: Option<Entry>)
    ensures works && (name in dir ==> if link then dir[name].Link? else dir[name].Regular?) ==> ok
    ensures ok ==> entry == if name in dir then Some(dir[name]) else None
    ensures ok && entry.Some? ==> if link then entry.value.Link? else entry.value.Regular?
  {
    var readable: bool := *;
    if name !in dir {
      return true, None;
    }
    var kind := if link then dir[name].Link? else dir[name].Regular?;
    ok := (works || readable) && kind;
    entry := Some(dir[name]);
  }

  /** Puts one entry back as the snapshot had it. */
  method PutBack(dir: Directory, name: string, before: Option<Entry>, works: bool) returns (ok: bool, next: Directory)
    ensures works ==> ok
    ensures ok ==> next == if before.Some? then dir[name := before.value] else dir - {name}
    ensures forall n :: n != name ==> SameAt(dir, next, n)
  {
    if before.Some? {
      ok, next := WriteAtomic(dir, name, before.value, works);
    } else {
      ok, next := RemoveIfPresent(dir, name, works);
    }
  }

  datatype Snapshot = Snapshot(available: Option<Entry>, enabled: Option<Entry>, credential: Option<Entry>)

  ghost predicate Taken(s: Snapshot, f: Files, site: string, auth: string) {
    && s.available == (if site in f.available then Some(f.available[site]) else None)
    && s.enabled == (if site in f.enabled then Some(f.enabled[site]) else None)
    && (auth != "" ==> s.credential == if auth in f.credentials then Some(f.credentials[auth]) else None)
  }

  /** What is already there is of the expected kind. */
  ghost predicate Expected(f: Files, site: string, auth: string) {
    && (site in f.available ==> f.available[site].Regular?)
    && (site in f.enabled ==> f.enabled[site].Link?)
    && (auth != "" && auth in f.credentials ==> f.credentials[auth].Regular?)
  }

  class Store {
    const availableDirectory: string
    var files: Files
    /** The configuration nginx runs with. */
    var loaded: Files

    constructor (directory: string, initial: Files)
      ensures availableDirectory == directory && files == loaded == initial
    {
      availableDirectory, files, loaded := directory, initial, initial;
    }

    /** nginx -t */
    method Test(works: bool) returns (ok: bool)
      ensures works ==> ok
    {
      var passed: bool := *;
      ok := works || passed;
    }

    /** A failed reload leaves nginx with the old, the new or no configuration. */
    method Reload(works: bool) returns (ok: bool)
      modifies this`loaded
      ensures works ==> ok
      ensures ok ==> loaded == files
    {
      var reloaded: bool := *;
      ok := works || reloaded;
      loaded := *;
      if ok {
        loaded := files;
      }
    }

    method TakeSnapshot(site: string, auth: string, works: bool) returns (ok: bool, s: Snapshot)
      ensures ok ==> Taken(s, files, site, auth)
      ensures (ok ==> Expected(files, site, auth)) && (works && Expected(files, site, auth) ==> ok)
    {
      s := Snapshot(None, None, None);
      var available, enabled, credential: Option<Entry>;
      ok, available := Inspect(files.available, site, false, works);
      if !ok {
        return;
      }
      ok, enabled := Inspect(files.enabled, site, true, works);
      if !ok {
        return;
      }
      credential := None;
      if auth != "" {
        ok, credential := Inspect(files.credentials, auth, false, works);
      }
      s := Snapshot(available, enabled, credential);
    }

    /** restore: credential, site file, link. */
    method Restore(site: string, auth: string, s: Snapshot, restorable: bool, ghost before: Files) returns (ok: bool)
      requires Taken(s, before, site, auth) && OnlyAt(before, files, site, auth)
      modifies this`files
      ensures OnlyAt(before, files, site, auth)
      ensures (ok ==> files == before) && (restorable ==> ok)
    {
      var next: Directory;
      if auth != "" {
        ok, next := PutBack(files.credentials, auth, s.credential, restorable);
        OnlyAtChains(before, files, files.(credentials := next), site, auth);
        files := files.(credentials := next);
        if !ok {
          return;
        }
      }
      ok, next := PutBack(files.available, site, s.available, restorable);
      OnlyAtChains(before, files, files.(available := next), site, auth);
      files := files.(available := next);
      if !ok {
        return;
      }
      ok, next := PutBack(files.enabled, site, s.enabled, restorable);
      OnlyAtChains(before, files, files.(enabled := next), site, auth);
      files := files.(enabled := next);
      if ok {
        AgreeEverywhere(before, files, site, auth);
      }
    }

    /** restoreAfterFailure: restore, then check and load what was restored. */
    method RestoreAfterFailure(site: string, auth: string, s: Snapshot, restorable: bool, ghost before: Files) returns (r: Result)
      requires Taken(s, before, site, auth) && OnlyAt(before, files, site, auth)
      modifies this`files, this`loaded
      ensures r in {Undone, Broken} && OnlyAt(before, files, site, auth) && (r == Broken ==> !restorable)
      ensures r == Undone ==> files == before && loaded == before
    {
      var ok := Restore(site, auth, s, restorable, before);
      if ok {
        ok := Test(restorable);
      }
      if ok {
        ok := Reload(restorable);
      }
      r := if ok then Undone else Broken;
    }

    /** The credential step of Apply. */
    method SetCredential(r: Rendered, works: bool) returns (ok: bool)
      modifies this`files
      ensures works ==> ok
      ensures OnlyAt(old(files), files, r.name, r.authName)
      ensures files == old(files).(credentials := files.credentials)
      ensures ok ==> files.credentials == CredentialsAfter(old(files).credentials, r)
    {
      var next: Directory;
      if r.authName == "" {
        return true;
      }
      if r.authContents == "" {
        ok, next := RemoveIfPresent(files.credentials, r.authName, works);
      } else {
        ok, next := WriteAtomic(files.credentials, r.authName, Regular(r.authContents, FILE_MODE), works);
      }
      files := files.(credentials := next);
    }

    /** The three file changes of Apply. */
    method Install(r: Rendered, works: bool) returns (ok: bool)
      modifies this`files
      ensures works ==> ok
      ensures OnlyAt(old(files), files, r.name, r.authName)
      ensures ok ==> files == Installed(old(files), r, availableDirectory)
    {
      ghost var before := files;
      ok := SetCredential(r, works);
      if !ok {
        return;
      }
      var next: Directory;
      ok, next := WriteAtomic(files.available, r.name, Regular(r.contents, FILE_MODE), works);
      OnlyAtChains(before, files, files.(available := next), r.name, r.authName);
      files := files.(available := next);
      if !ok {
        return;
      }
      ok, next := WriteAtomic(files.enabled, r.name, Link(availableDirectory + "/" + r.name), works);
      OnlyAtChains(before, files, files.(enabled := next), r.name, r.authName);
      files := files.(enabled := next);
    }

    /** The three removals of Remove. */
    method Uninstall(site: string, auth: string, works: bool) returns (ok: bool)
      requires auth != ""
      modifies this`files
      ensures works ==> ok
      ensures OnlyAt(old(files), files, site, auth)
      ensures ok ==> files == Uninstalled(old(files), site, auth)
    {
      ghost var before := files;
      var next: Directory;
      ok, next := RemoveIfPresent(files.enabled, site, works);
      files := files.(enabled := next);
      if !ok {
        return;
      }
      ok, next := RemoveIfPresent(files.available, site, works);
      files := files.(available := next);
      if !ok {
        return;
      }
      ok, next := RemoveIfPresent(files.credentials, auth, works);
      files := files.(credentials := next);
    }

    /** Checks and loads what is on disk, or puts the snapshot back. */
    method Finish(changed: bool, site: string, auth: string, s: Snapshot, works: bool, restorable: bool, ghost before: Files) returns (r: Result)
      requires Taken(s, before, site, auth) && OnlyAt(before, files, site, auth)
      modifies this`files, this`loaded
      ensures r in {Done, Undone, Broken} && OnlyAt(before, files, site, auth) && (r == Broken ==> !restorable)
      ensures r == Done ==> changed && files == old(files) && loaded == files
      ensures works && changed ==> r == Done
      ensures r == Undone ==> files == before && loaded == before
    {
      var ok := changed;
      if ok {
        ok := Test(works);
      }
      if ok {
        ok := Reload(works);
      }
      if ok {
        return Done;
      }
      r := RestoreAfterFailure(site, auth, s, restorable, before);
    }

    /**
     * Apply: the site is installed and loaded, or everything is as it was.
     * `works` says whether nothing fails on the way there, and `restorable`
     * whether what a restore does works: putting each file back, and nginx
     * checking and loading them.
     */
    method Apply(r: Rendered, works: bool, restorable: bool) returns (result: Result)
      modifies this
      // Where nothing fails, a well-formed site is installed.
      ensures works && result != Done ==>
        || !ManagedName(r.name, SITE) || (r.authName != "" && !ManagedName(r.authName, CREDENTIAL))
        || !r.authDirectoryMatches || !old(Expected(files, r.name, r.authName))
      ensures result == Done ==> files == Installed(old(files), r, availableDirectory) && loaded == files
      // The rendered site, a link to it and the credential, which is gone for empty contents.
      ensures result == Done ==>
        && r.name in files.available && files.available[r.name] == Regular(r.contents, FILE_MODE)
        && r.name in files.enabled && files.enabled[r.name] == Link(availableDirectory + "/" + r.name)
        && (if r.authName == "" then files.credentials == old(files).credentials
            else if r.authContents == "" then r.authName !in files.credentials
            else r.authName in files.credentials && files.credentials[r.authName] == Regular(r.authContents, FILE_MODE))
      ensures result == Rejected ==> files == old(files) && loaded == old(loaded)
      ensures result == Undone ==> files == old(files) && loaded == old(files)
      ensures OnlyAt(old(files), files, r.name, r.authName)
      ensures (!ManagedName(r.name, SITE) ==> result == Rejected) && (result == Broken ==> !restorable)
    {
      var directories: bool, permitted: bool := *, *;
      if !ManagedName(r.name, SITE) || (r.authName != "" && !ManagedName(r.authName, CREDENTIAL)) || !(works || directories) {
        return Rejected;
      }
      if !r.authDirectoryMatches || (r.authName != "" && r.authContents != "" && !(works || permitted)) {
        return Rejected;
      }
      var ok, s := TakeSnapshot(r.name, r.authName, works);
      if !ok {
        return Rejected;
      }
      ghost var before := files;
      ok := Install(r, works);
      result := Finish(ok, r.name, r.authName, s, works, restorable, before);
    }

    /** Remove: the site is gone and unloaded, or everything is as it was. */
    method Remove(site: string, works: bool, restorable: bool) returns (result: Result)
      modifies this
      ensures works && result != Done ==> !ManagedName(site, SITE) || !old(Expected(files, site, CredentialOf(site)))
      ensures result == Done ==> ManagedName(site, SITE) && files == Uninstalled(old(files), site, CredentialOf(site)) && loaded == files
      // Neither the site, nor a link to it, nor its credential is left.
      ensures result == Done ==>
        && site !in files.available && site !in files.enabled
        && forall slug | site == PREFIX + slug + SITE :: PREFIX + slug + CREDENTIAL !in files.credentials
      ensures result == Rejected ==> files == old(files) && loaded == old(loaded)
      ensures result == Undone ==> files == old(files) && loaded == old(files)
      ensures ManagedName(site, SITE) ==> OnlyAt(old(files), files, site, CredentialOf(site))
      ensures (!ManagedName(site, SITE) ==> result == Rejected) && (result == Broken ==> !restorable)
    {
      if !ManagedName(site, SITE) {
        return Rejected;
      }
      CredentialIsManaged(site);
      var directories: bool := *;
      var auth := CredentialOf(site);
      if !works && !directories {
        return Rejected;
      }
      var ok, s := TakeSnapshot(site, auth, works);
      if !ok {
        return Rejected;
      }
      ghost var before := files;
      ok := Uninstall(site, auth, works);
      result := Finish(ok, site, auth, s, works, restorable, before);
    }
  }

  function CredentialsAfter(before: Directory, r: Rendered): Directory {
    if r.authName == "" then before
    else if r.authContents == "" then before - {r.authName}
    else before[r.authName := Regular(r.authContents, FILE_MODE)]
  }

  /** The files once a site is installed. */
  function Installed(f: Files, r: Rendered, directory: string): Files {
    Files(
      f.available[r.name := Regular(r.contents, FILE_MODE)],
      f.enabled[r.name := Link(directory + "/" + r.name)],
      CredentialsAfter(f.credentials, r))
  }

  /** The files once a site is gone. */
  function Uninstalled(f: Files, site: string, auth: string): Files {
    Files(f.available - {site}, f.enabled - {site}, f.credentials - {auth})
  }

  datatype Call = Apply(rendered: Rendered, works: bool, restorable: bool) | Remove(site: string, works: bool, restorable: bool)

  /** The files after a call that was done. */
  function After(f: Files, c: Call, directory: string): Files {
    match c
    case Apply(r, _, _) => Installed(f, r, directory)
    case Remove(site, _, _) => if |site| >= |SITE| then Uninstalled(f, site, CredentialOf(site)) else f
  }

  /** The files after the calls that were done, in order. */
  function Replay(f: Files, calls: seq<Call>, results: seq<Result>, directory: string): Files
    requires |calls| == |results|
  {
    if calls == [] then f
    else
      var n := |calls| - 1;
      var before := Replay(f, calls[..n], results[..n], directory);
      if results[n] == Done then After(before, calls[n], directory) else before
  }

  /**
   * Every run of installations and removals with any step failing: as long as
   * no restore failed, disk and running configuration agree and hold exactly
   * the work of the calls that reported success.  A call is reported broken
   * only where its restore could fail.
   */
  method AnyRun(store: Store, calls: seq<Call>) returns (results: seq<Result>)
    requires store.loaded == store.files
    modifies store
    ensures |results| == |calls|
    ensures forall k | 0 <= k < |calls| :: results[k] == Broken ==> !calls[k].restorable
    ensures (Broken !in results || forall c | c in calls :: c.restorable) ==>
      store.loaded == store.files == Replay(old(store.files), calls, results, store.availableDirectory)
  {
    results := [];
    for k := 0 to |calls|
      invariant |results| == k
      invariant forall i | 0 <= i < k :: results[i] == Broken ==> !calls[i].restorable
      invariant Broken !in results ==>
        store.loaded == store.files == Replay(old(store.files), calls[..k], results, store.availableDirectory)
    {
      var r: Result;
      match calls[k] {
        case Apply(rendered, works, restorable) => r := store.Apply(rendered, works, restorable);
        case Remove(site, works, restorable) => r := store.Remove(site, works, restorable);
      }
      assert calls[..k + 1][..k] == calls[..k] && (results + [r])[..k] == results;
      results := results + [r];
    }
    assert calls[..|calls|] == calls;
  }
}
