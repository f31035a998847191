/**
 * The part of a server's `.manager-runtime` directory that a crash can tear:
 * the `current` link, the directory `generations/` and its entries.
 *
 * A directory operation takes effect at once for running code, but what a
 * crash leaves behind is decided by the last successful directory sync: every
 * value written since then may or may not have reached the disk, each entry
 * independently of the others.  `links` and `remains` hold those
 * possibilities, and `rooted` says that `.manager-runtime` was synced since
 * `generations/` was made in it, so that a crash cannot lose that directory.
 */
module RuntimeDisk {

  /** The time stamp in `generation-<nanoseconds>`. */
  type Name = nat

  /** What `current` names. */
  datatype Pointer = Absent | To(name: Name)

  /** A generation directory: RemoveAll can stop half way. */
  datatype Directory<C> = Missing | Partial | Complete(contents: C)

  datatype Disk<C(==)> = Disk(
    current: Pointer,
    links: set<Pointer>,
    generations: map<Name, Directory<C>>,
    remains: map<Name, set<Directory<C>>>,
    rooted: bool)
  {
    /** What running code finds under generations/n. */
    function Generation(n: Name): Directory<C> {
      if n in generations then generations[n] else Missing
    }

    /** What a crash may leave under generations/n. */
    function Remains(n: Name): set<Directory<C>> {
      if n in remains then remains[n] else {Missing}
    }

    /** The entry n of generations/ is complete, and stays so across a crash that leaves generations/. */
    ghost predicate Durable(n: Name) {
      Generation(n).Complete? && Remains(n) == {Generation(n)}
    }

    /** A pointer a crash may leave: what it names is left with it. */
    ghost predicate Sound(p: Pointer) {
      p.To? ==> rooted && Durable(p.name)
    }

    /** Whichever un-synced operations survive, `current` is absent or names a complete generation. */
    ghost predicate CrashSafe() {
      && current in links
      && forall p <- links :: Sound(p)
    }

    /** The `current` link carries no un-synced operation. */
    ghost predicate Settled() {
      links == {current}
    }
  }

  /** A crash may leave this link, and this under generations/n; without a sync generations/ itself may be lost. */
  ghost predicate Leaves<C>(d: Disk<C>, link: Pointer, n: Name, entry: Directory<C>) {
    link in d.links && (entry in d.Remains(n) || (!d.rooted && entry == Missing))
  }

  /** If a crash leaves this, running code sees what it saw before: a complete generation. */
  ghost predicate Survives<C>(d: Disk<C>, link: Pointer, entry: Directory<C>) {
    link.To? && Leaves(d, link, link.name, entry) ==> entry.Complete? && entry == d.Generation(link.name)
  }

  /**
   * A disk is crash safe exactly when every crash leaves `current` absent, or
   * naming a complete generation with the contents running code found there.
   */
  lemma CrashSafeIff<C>(d: Disk<C>)
    requires forall n :: d.Remains(n) != {}
    ensures d.CrashSafe() <==> d.current in d.links && forall link, entry :: Survives(d, link, entry)
  {
    if forall link, entry :: Survives(d, link, entry) {
      forall p <- d.links ensures d.Sound(p) {
        if p.To? {
          assert Survives(d, p, Missing);
          var entry :| entry in d.Remains(p.name);
          assert Survives(d, p, entry);
          assert forall e | e in d.Remains(p.name) :: Survives(d, p, e);
        }
      }
    }
  }

  /** Moving the link adds its target to what a crash may leave. */
  lemma RelinkLeaves<C>(d: Disk<C>, p: Pointer, link: Pointer, n: Name, entry: Directory<C>)
    ensures Leaves(Relink(d, p), link, n, entry) <==>
      (link in d.links || link == p) && (entry in d.Remains(n) || (!d.rooted && entry == Missing))
    ensures Relink(d, p).current == p && Relink(d, p).Generation(n) == d.Generation(n)
  {
  }

  /** Rewriting an entry adds the states it takes. */
  lemma RewriteLeaves<C>(d: Disk<C>, m: Name, last: Directory<C>, passing: set<Directory<C>>, link: Pointer, n: Name, entry: Directory<C>)
    ensures Leaves(Rewrite(d, m, last, passing), link, n, entry) <==>
      Leaves(d, link, n, entry) || (link in d.links && n == m && (entry in passing || entry == last))
    ensures Rewrite(d, m, last, passing).Generation(n) == if n == m then last else d.Generation(n)
    ensures Rewrite(d, m, last, passing).current == d.current
  {
  }

  /** A sync takes back everything but the present state of its directory. */
  lemma SyncsLeave<C>(d: Disk<C>, link: Pointer, n: Name, entry: Directory<C>)
    ensures Leaves(SyncLinks(d), link, n, entry) <==> link == d.current && entry in d.Remains(n)
    ensures Leaves(SyncGenerations(d), link, n, entry) <==>
      link in d.links && (entry == d.Generation(n) || (!d.rooted && entry == Missing))
    ensures SyncLinks(d).current == SyncGenerations(d).current == d.current
    ensures SyncLinks(d).Generation(n) == SyncGenerations(d).Generation(n) == d.Generation(n)
  {
  }

  /** Renames a new link over `current`, or removes `current`. */
  function Relink<C(==)>(d: Disk<C>, p: Pointer): Disk<C> {
    d.(current := p, links := d.links + {p})
  }

  /** A successful sync of .manager-runtime. */
  function SyncLinks<C(==)>(d: Disk<C>): Disk<C> {
    d.(links := {d.current}, rooted := true)
  }

  /** The entry generations/n takes the given states one after the other. */
  function Rewrite<C(==)>(d: Disk<C>, n: Name, last: Directory<C>, passing: set<Directory<C>>): Disk<C> {
    d.(generations := d.generations[n := last],
       remains := d.remains[n := d.Remains(n) + passing + {last}])
  }

  /** A successful sync of generations/. */
  function SyncGenerations<C(==)>(d: Disk<C>): Disk<C> {
    d.(remains := map n | n in d.generations :: {d.generations[n]})
  }

  /** Moving `current` is crash safe exactly when its new target is complete and durable. */
  lemma RelinkIsSafeIff<C>(d: Disk<C>, p: Pointer)
    requires d.CrashSafe()
    ensures Relink(d, p).CrashSafe() <==> d.Sound(p)
  {
  }

  /**
   * Removing a complete generation, even part of the way, is crash safe
   * exactly when no surviving `current` link can name it.
   */
  lemma RemovalIsSafeIff<C>(d: Disk<C>, n: Name, last: Directory<C>)
    requires d.CrashSafe() && !last.Complete?
    ensures Rewrite(d, n, last, {Partial}).CrashSafe() <==> To(n) !in d.links
  {
  }

  /** Syncing either directory never makes a safe disk unsafe. */
  lemma SyncsAreSafe<C>(d: Disk<C>)
    requires d.CrashSafe()
    ensures SyncLinks(d).CrashSafe() && SyncLinks(d).Settled() && SyncLinks(d).rooted
    ensures SyncGenerations(d).CrashSafe()
    ensures forall n :: d.Generation(n).Complete? ==> SyncGenerations(d).Durable(n)
  {
  }

  /** Rewriting an entry that no surviving link can name keeps the disk safe. */
  lemma RewriteIsSafe<C>(d: Disk<C>, n: Name, last: Directory<C>, passing: set<Directory<C>>)
    requires d.CrashSafe() && To(n) !in d.links
    ensures Rewrite(d, n, last, passing).CrashSafe()
  {
  }

  /**
   * The first pointer of every new server: the generation is complete and its
   * entry synced, but while `current` is moved and not yet synced a crash can
   * keep the link and lose generations/.  The sync that follows ends this.
   */
  lemma FirstPointerTears<C>(n: Name, contents: C)
    ensures
      var blank := Disk(Absent, {Absent}, map[], map[], false);
      var published := SyncGenerations(Rewrite(blank, n, Complete(contents), {}));
      && published.CrashSafe() && published.Durable(n)
      && !Relink(published, To(n)).CrashSafe()
      && SyncLinks(Relink(published, To(n))).CrashSafe()
  {
    var blank: Disk<C> := Disk(Absent, {Absent}, map[], map[], false);
    var published := SyncGenerations(Rewrite(blank, n, Complete(contents), {}));
    assert published.Durable(n);
    RelinkIsSafeIff(published, To(n));
  }

  /**
   * The smallest torn runtime: the first generation is published, `current` is
   * moved to it and back without a sync reaching the disk, and the generation
   * is then removed as if it had never been named.
   */
  lemma LostCompensationTears<C>(n: Name, contents: C)
    ensures
      var blank := Disk(Absent, {Absent}, map[], map[], true);
      var published := SyncGenerations(Rewrite(blank, n, Complete(contents), {}));
      var reverted := Relink(Relink(published, To(n)), Absent);
      reverted.CrashSafe() && !Rewrite(reverted, n, Missing, {Partial}).CrashSafe()
  {
  }

  /**
   * The smallest dangling pointer: the first generation is published and
   * `current` is moved to it, neither the sync nor the move back succeeds, and
   * the generation is then removed because its commit reported a failure.
   */
  lemma StrandedPointerDangles<C>(n: Name, contents: C)
    ensures
      var blank := Disk(Absent, {Absent}, map[], map[], true);
      var published := SyncGenerations(Rewrite(blank, n, Complete(contents), {}));
      var removed := Rewrite(Relink(published, To(n)), n, Missing, {Partial});
      removed.current == To(n) && removed.Generation(n) == Missing
  {
  }
}
