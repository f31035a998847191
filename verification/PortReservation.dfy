/**
 * Reserving host ports for an installation: the allocator proposes a window of
 * ports the host reports free, starting at a cursor, and moves the cursor on
 * whenever the store refuses the window.  Nothing else writes meanwhile.
 */
module PortReservation {
  import opened Common
  import opened Configuration
  import opened ConfigurationTables
  import opened ConfigurationInvariants
  import opened ConfigurationRuns
  import CS = ConfigurationStore
  import opened PortAllocation

  /** The ports of the range in the order a cursor visits them, wrapping around. */
  function At(min: nat, size: nat, cursor: nat, offset: nat): nat
    requires cursor < size && offset < size
  {
    if cursor + offset < size then min + cursor + offset else min + cursor + offset - size
  }

  lemma AtWraps(min: nat, size: nat, cursor: nat, offset: nat)
    requires cursor < size && offset < size
    ensures At(min, size, cursor, offset) == min + (cursor + offset) % size
  {
    var n := cursor + offset;
    if n < size {
      ModOf(n, size, 0);
    } else {
      ModOf(n, size, 1);
    }
  }

  lemma ModOf(n: nat, size: nat, q: nat)
    requires size > 0 && q <= 1 && q * size <= n < (q + 1) * size
    ensures n % size == n - q * size
  {
    if q == 0 {
      assert n / size == 0;
    } else {
      assert n == size + (n - size);
      assert n / size == 1;
    }
  }

  /** The first port from an offset on that is not used and that the host reports free. */
  function FirstUsable(probe: nat -> Answer, used: set<nat>, min: nat, size: nat, cursor: nat, offset: nat): Option<nat>
    requires cursor < size && offset <= size
    decreases size - offset
  {
    if offset == size then None
    else
      var port := At(min, size, cursor, offset);
      if port !in used && probe(port) == Available then Some(port)
      else FirstUsable(probe, used, min, size, cursor, offset + 1)
  }

  /** Ports selected so far, and every port not to select again. */
  datatype Selection = Selection(ports: map<PortKind, nat>, used: set<nat>)

  /** The window at a cursor: one port for each kind, or nothing when the host has too few. */
  function Window(probe: nat -> Answer, used: set<nat>, min: nat, size: nat, cursor: nat, kinds: seq<PortKind>): Option<Selection>
    requires cursor < size
  {
    if kinds == [] then Some(Selection(map[], used))
    else
      var front, last := kinds[..|kinds| - 1], kinds[|kinds| - 1];
      match Window(probe, used, min, size, cursor, front)
      case None => None
      case Some(s) =>
        match FirstUsable(probe, s.used, min, size, cursor, 0)
        case None => None
        case Some(port) => Some(Selection(s.ports[last := port], s.used + {port}))
  }

  /** The first window from a cursor on that the store accepts. */
  function Search(t: Tables, p: ProjectId, probe: nat -> Answer, used: set<nat>, min: nat, size: nat, cursor: nat, kinds: seq<PortKind>): Option<map<PortKind, nat>>
    requires size > 0 && cursor <= size
    decreases size - cursor
  {
    if cursor == size then None
    else
      match Window(probe, used, min, size, cursor, kinds)
      case None => None
      case Some(s) =>
        if TryReserve(t, p, s.ports).Committed? then Some(s.ports)
        else Search(t, p, probe, used, min, size, cursor + 1, kinds)
  }

  lemma {:induction false} WindowKinds(probe: nat -> Answer, used: set<nat>, min: nat, size: nat, cursor: nat, kinds: seq<PortKind>)
    requires cursor < size
    ensures var w := Window(probe, used, min, size, cursor, kinds);
      w.Some? ==> forall kind :: kind in w.value.ports <==> kind in kinds
  {
    if kinds != [] {
      WindowKinds(probe, used, min, size, cursor, kinds[..|kinds| - 1]);
      assert kinds == kinds[..|kinds| - 1] + [kinds[|kinds| - 1]];
    }
  }

  lemma {:induction false} SearchCommits(t: Tables, p: ProjectId, probe: nat -> Answer, used: set<nat>, min: nat, size: nat, cursor: nat, kinds: seq<PortKind>)
    requires size > 0 && cursor <= size
    ensures var s := Search(t, p, probe, used, min, size, cursor, kinds);
      s.Some? ==> TryReserve(t, p, s.value).Committed? && forall kind :: kind in s.value <==> kind in kinds
    decreases size - cursor
  {
    if cursor < size {
      WindowKinds(probe, used, min, size, cursor, kinds);
      SearchCommits(t, p, probe, used, min, size, cursor + 1, kinds);
    }
  }

  // ---------------------------------------------------------------------------------------------
  // When the search succeeds
  // ---------------------------------------------------------------------------------------------

  /** A port the allocator may propose: not the project's own, and free on the host. */
  predicate Usable(probe: nat -> Answer, used: set<nat>, port: nat) {
    port !in used && probe(port) == Available
  }

  /** The usable ports of the range. */
  function UsablePorts(probe: nat -> Answer, used: set<nat>, min: nat, size: nat): set<nat> {
    set port | min <= port < min + size && Usable(probe, used, port)
  }

  /** The usable ports in the order a cursor meets them, from an offset on. */
  function UsableFrom(probe: nat -> Answer, used: set<nat>, min: nat, size: nat, cursor: nat, offset: nat): seq<nat>
    requires cursor < size && offset <= size
    decreases size - offset
  {
    if offset == size then []
    else
      var port := At(min, size, cursor, offset);
      (if Usable(probe, used, port) then [port] else []) + UsableFrom(probe, used, min, size, cursor, offset + 1)
  }

  /**
   * There are n usable ports, and from some cursor on the first n that are met,
   * going round the range, are neither allocated nor reserved.
   */
  ghost predicate Fits(t: Tables, probe: nat -> Answer, used: set<nat>, min: nat, size: nat, n: nat) {
    && n <= |UsablePorts(probe, used, min, size)|
    && RunFrom(t, probe, used, min, size, n, 0)
  }

  /** From some cursor on, not before the given one, the first n usable ports are free. */
  ghost predicate RunFrom(t: Tables, probe: nat -> Answer, used: set<nat>, min: nat, size: nat, n: nat, from: nat) {
    exists cursor: nat :: from <= cursor < size && FreeRun(t, UsableFrom(probe, used, min, size, cursor, 0), n)
  }

  ghost predicate FreeRun(t: Tables, ports: seq<nat>, n: nat) {
    forall i | 0 <= i < n && i < |ports| :: !PortInUse(t, ports[i])
  }

  lemma {:induction false} FirstIsHead(probe: nat -> Answer, used: set<nat>, min: nat, size: nat, cursor: nat, offset: nat)
    requires cursor < size && offset <= size
    ensures var ports := UsableFrom(probe, used, min, size, cursor, offset);
      FirstUsable(probe, used, min, size, cursor, offset) == if ports == [] then None else Some(ports[0])
    decreases size - offset
  {
    if offset < size {
      FirstIsHead(probe, used, min, size, cursor, offset + 1);
    }
  }

  /** What is met from an offset on are the usable ports at that offset and beyond, each once. */
  lemma {:induction false} MetPorts(probe: nat -> Answer, used: set<nat>, min: nat, size: nat, cursor: nat, offset: nat)
    requires cursor < size && offset <= size
    ensures var ports := UsableFrom(probe, used, min, size, cursor, offset);
      && (forall port | port in ports :: Usable(probe, used, port) && exists o :: offset <= o < size && At(min, size, cursor, o) == port)
      && (forall o | offset <= o < size && Usable(probe, used, At(min, size, cursor, o)) :: At(min, size, cursor, o) in ports)
      && (forall i, j | 0 <= i < j < |ports| :: ports[i] != ports[j])
    decreases size - offset
  {
    if offset < size {
      MetPorts(probe, used, min, size, cursor, offset + 1);
      var rest := UsableFrom(probe, used, min, size, cursor, offset + 1);
      assert At(min, size, cursor, offset) !in rest;
    }
  }

  /** Taking a port that is not met leaves what is met. */
  lemma {:induction false} UnmetChangesNothing(probe: nat -> Answer, used: set<nat>, min: nat, size: nat, cursor: nat, offset: nat, x: nat)
    requires cursor < size && offset <= size
    requires forall o | offset <= o < size :: At(min, size, cursor, o) != x
    ensures UsableFrom(probe, used + {x}, min, size, cursor, offset) == UsableFrom(probe, used, min, size, cursor, offset)
    decreases size - offset
  {
    if offset < size {
      UnmetChangesNothing(probe, used, min, size, cursor, offset + 1, x);
    }
  }

  /** Taking the first port leaves the others in order. */
  lemma {:induction false} TakeFirst(probe: nat -> Answer, used: set<nat>, min: nat, size: nat, cursor: nat, offset: nat)
    requires cursor < size && offset <= size && UsableFrom(probe, used, min, size, cursor, offset) != []
    ensures var ports := UsableFrom(probe, used, min, size, cursor, offset);
      UsableFrom(probe, used + {ports[0]}, min, size, cursor, offset) == ports[1..]
    decreases size - offset
  {
    var port := At(min, size, cursor, offset);
    if Usable(probe, used, port) {
      UnmetChangesNothing(probe, used, min, size, cursor, offset + 1, port);
    } else {
      TakeFirst(probe, used, min, size, cursor, offset + 1);
    }
  }

  /** The window at a cursor gives the kinds the first usable ports, in order, and leaves the rest. */
  lemma {:induction false} WindowTakesPrefix(probe: nat -> Answer, used: set<nat>, min: nat, size: nat, cursor: nat, kinds: seq<PortKind>)
    requires cursor < size && EachKindOnce(kinds)
    ensures var ports := UsableFrom(probe, used, min, size, cursor, 0);
      var w := Window(probe, used, min, size, cursor, kinds);
      && (w.Some? <==> |kinds| <= |ports|)
      && (w.Some? ==> UsableFrom(probe, w.value.used, min, size, cursor, 0) == ports[|kinds|..])
      && (w.Some? ==> forall i | 0 <= i < |kinds| :: kinds[i] in w.value.ports && w.value.ports[kinds[i]] == ports[i])
  {
    if kinds != [] {
      var front, last := kinds[..|kinds| - 1], kinds[|kinds| - 1];
      WindowTakesPrefix(probe, used, min, size, cursor, front);
      var before := Window(probe, used, min, size, cursor, front);
      if before.Some? {
        FirstIsHead(probe, before.value.used, min, size, cursor, 0);
        if UsableFrom(probe, before.value.used, min, size, cursor, 0) != [] {
          TakeFirst(probe, before.value.used, min, size, cursor, 0);
        }
      }
    }
  }

  /** However the range is entered, the same number of usable ports is met. */
  lemma UsableCount(probe: nat -> Answer, used: set<nat>, min: nat, size: nat, cursor: nat)
    requires cursor < size
    ensures |UsableFrom(probe, used, min, size, cursor, 0)| == |UsablePorts(probe, used, min, size)|
  {
    var ports := UsableFrom(probe, used, min, size, cursor, 0);
    MetPorts(probe, used, min, size, cursor, 0);
    forall port | port in UsablePorts(probe, used, min, size) ensures port in ports {
      var o := if port - min >= cursor then port - min - cursor else port - min - cursor + size;
      assert At(min, size, cursor, o) == port;
    }
    assert Members(ports) == UsablePorts(probe, used, min, size);
    DistinctCount(ports);
  }

  function Members(ports: seq<nat>): set<nat> {
    set port | port in ports
  }

  lemma {:induction false} DistinctCount(ports: seq<nat>)
    requires forall i, j | 0 <= i < j < |ports| :: ports[i] != ports[j]
    ensures |Members(ports)| == |ports|
  {
    if ports != [] {
      var front, last := ports[..|ports| - 1], ports[|ports| - 1];
      DistinctCount(front);
      assert ports == front + [last] && last !in Members(front);
      assert Members(ports) == Members(front) + {last};
    }
  }

  /** The store accepts a window exactly when none of its ports is allocated or reserved. */
  lemma WindowReservesIff(t: Tables, p: ProjectId, probe: nat -> Answer, used: set<nat>, min: nat, size: nat, cursor: nat, kinds: seq<PortKind>)
    requires cursor < size && EachKindOnce(kinds) && KindsUnique(t.allocations)
    requires forall kind | kind in kinds :: !KindTaken(t.allocations, p, kind)
    requires |kinds| <= |UsableFrom(probe, used, min, size, cursor, 0)|
    ensures var w := Window(probe, used, min, size, cursor, kinds);
      w.Some? && (TryReserve(t, p, w.value.ports).Committed? <==>
                    FreeRun(t, UsableFrom(probe, used, min, size, cursor, 0), |kinds|))
  {
    hide TryReserve, KindsUnique, KindTaken, Window;
    var ports := UsableFrom(probe, used, min, size, cursor, 0);
    WindowTakesPrefix(probe, used, min, size, cursor, kinds);
    WindowKinds(probe, used, min, size, cursor, kinds);
    MetPorts(probe, used, min, size, cursor, 0);
    var chosen := Window(probe, used, min, size, cursor, kinds).value.ports;
    ReservesIff(t, p, chosen);
    forall k, k' | k in chosen && k' in chosen && k != k' ensures chosen[k] != chosen[k'] {
      var i :| 0 <= i < |kinds| && kinds[i] == k;
      var j :| 0 <= j < |kinds| && kinds[j] == k';
      assert i < j || j < i;
    }
    if FreeRun(t, ports, |kinds|) {
      forall k | k in chosen ensures !PortInUse(t, chosen[k]) {
        var i :| 0 <= i < |kinds| && kinds[i] == k;
      }
    } else {
      var i :| 0 <= i < |kinds| && PortInUse(t, ports[i]);
      assert kinds[i] in chosen && chosen[kinds[i]] == ports[i];
    }
  }

  lemma {:induction false} SearchFromIff(t: Tables, p: ProjectId, probe: nat -> Answer, used: set<nat>, min: nat, size: nat, from: nat, kinds: seq<PortKind>)
    requires size > 0 && from <= size && EachKindOnce(kinds) && KindsUnique(t.allocations)
    requires forall kind | kind in kinds :: !KindTaken(t.allocations, p, kind)
    ensures Search(t, p, probe, used, min, size, from, kinds).Some? <==>
      && |kinds| <= |UsablePorts(probe, used, min, size)|
      && RunFrom(t, probe, used, min, size, |kinds|, from)
    decreases size - from
  {
    hide TryReserve, KindsUnique, KindTaken, Window, FreeRun, UsablePorts;
    if from < size {
      UsableCount(probe, used, min, size, from);
      SearchFromIff(t, p, probe, used, min, size, from + 1, kinds);
      if |kinds| <= |UsablePorts(probe, used, min, size)| {
        WindowReservesIff(t, p, probe, used, min, size, from, kinds);
      } else {
        WindowTakesPrefix(probe, used, min, size, from, kinds);
      }
    }
  }

  /** The installer's search, for any number of kinds: it succeeds exactly when the ports fit. */
  lemma SearchIff(t: Tables, p: ProjectId, probe: nat -> Answer, used: set<nat>, min: nat, size: nat, kinds: seq<PortKind>)
    requires size > 0 && EachKindOnce(kinds) && KindsUnique(t.allocations)
    requires forall kind | kind in kinds :: !KindTaken(t.allocations, p, kind)
    ensures Search(t, p, probe, used, min, size, 0, kinds).Some? <==> Fits(t, probe, used, min, size, |kinds|)
  {
    SearchFromIff(t, p, probe, used, min, size, 0, kinds);
  }

  /** For one missing kind that means that some port of the range is free. */
  lemma OneKindFitsIff(t: Tables, probe: nat -> Answer, used: set<nat>, min: nat, size: nat)
    requires size > 0 && forall u | u in used :: u in t.allocations
    ensures Fits(t, probe, used, min, size, 1) <==> exists port :: min <= port < min + size && Free(t, probe, port)
  {
    if port :| min <= port < min + size && Free(t, probe, port) {
      assert port in UsablePorts(probe, used, min, size);
      assert At(min, size, port - min, 0) == port;
      assert UsableFrom(probe, used, min, size, port - min, 0)[0] == port;
    }
    if Fits(t, probe, used, min, size, 1) {
      var cursor: nat :| 0 <= cursor < size && FreeRun(t, UsableFrom(probe, used, min, size, cursor, 0), 1);
      UsableCount(probe, used, min, size, cursor);
      MetPorts(probe, used, min, size, cursor, 0);
      var port := UsableFrom(probe, used, min, size, cursor, 0)[0];
      assert port in UsableFrom(probe, used, min, size, cursor, 0);
      assert min <= port < min + size && Free(t, probe, port);
    }
  }

  /** For two kinds it is not: alternate ports are taken, so every window of neighbours meets one. */
  lemma TwoKindsMissFreePorts(t: Tables, p: ProjectId, other: ProjectId, probe: nat -> Answer)
    requires p != other && t.reservations == map[]
    requires t.allocations == map[2 := Allocation(other, API), 4 := Allocation(other, STUDIO)]
    requires forall port :: probe(port) == Available
    ensures !Fits(t, probe, {}, 1, 4, 2)
    ensures FreePorts(t, probe, 1, 5) == [1, 3]
  {
    hide Window, TryReserve, Fits;
    NeighboursRefused(t, p, other, probe, 3);
    NeighboursRefused(t, p, other, probe, 2);
    NeighboursRefused(t, p, other, probe, 1);
    NeighboursRefused(t, p, other, probe, 0);
    assert Search(t, p, probe, {}, 1, 4, 4, [API, STUDIO]) == None;
    assert Search(t, p, probe, {}, 1, 4, 3, [API, STUDIO]) == None;
    assert Search(t, p, probe, {}, 1, 4, 2, [API, STUDIO]) == None;
    assert Search(t, p, probe, {}, 1, 4, 1, [API, STUDIO]) == None;
    assert Search(t, p, probe, {}, 1, 4, 0, [API, STUDIO]) == None;
    SearchIff(t, p, probe, {}, 1, 4, [API, STUDIO]);
    assert FreePorts(t, probe, 1, 2) == [1];
    assert FreePorts(t, probe, 1, 3) == [1];
    assert FreePorts(t, probe, 1, 4) == [1, 3];
  }

  lemma NeighboursRefused(t: Tables, p: ProjectId, other: ProjectId, probe: nat -> Answer, cursor: nat)
    requires p != other && t.reservations == map[] && cursor < 4
    requires t.allocations == map[2 := Allocation(other, API), 4 := Allocation(other, STUDIO)]
    requires forall port :: probe(port) == Available
    ensures var w := Window(probe, {}, 1, 4, cursor, [API, STUDIO]);
      w.Some? && TryReserve(t, p, w.value.ports).Aborted?
  {
    hide TryReserve;
    Neighbours(probe, cursor);
    var ports := map[API := 1 + cursor, STUDIO := if cursor == 3 then 1 else 2 + cursor];
    assert ports[API] in t.allocations || ports[STUDIO] in t.allocations;
    ReservesIff(t, p, ports);
  }

  lemma Neighbours(probe: nat -> Answer, cursor: nat)
    requires cursor < 4 && forall port :: probe(port) == Available
    ensures var w := Window(probe, {}, 1, 4, cursor, [API, STUDIO]);
      w.Some? && w.value.ports == map[API := 1 + cursor, STUDIO := if cursor == 3 then 1 else 2 + cursor]
  {
  }

  /** The inner loop of the search for one kind. */
  method FindUsable(probe: nat -> Answer, used: set<nat>, min: nat, size: nat, cursor: nat) returns (port: Option<nat>)
    requires cursor < size
    ensures port == FirstUsable(probe, used, min, size, cursor, 0)
  {
    for offset := 0 to size
      invariant FirstUsable(probe, used, min, size, cursor, 0) == FirstUsable(probe, used, min, size, cursor, offset)
    {
      var candidate := min + (cursor + offset) % size;
      AtWraps(min, size, cursor, offset);
      if candidate !in used && probe(candidate) == Available {
        return Some(candidate);
      }
    }
    return None;
  }

  /** A refused front refuses the whole window. */
  lemma {:induction false} NoWindow(probe: nat -> Answer, used: set<nat>, min: nat, size: nat, cursor: nat, kinds: seq<PortKind>, k: nat)
    requires cursor < size && k <= |kinds| && Window(probe, used, min, size, cursor, kinds[..k]).None?
    ensures Window(probe, used, min, size, cursor, kinds).None?
  {
    if k < |kinds| {
      assert kinds[..|kinds| - 1][..k] == kinds[..k];
      NoWindow(probe, used, min, size, cursor, kinds[..|kinds| - 1], k);
    } else {
      assert kinds[..k] == kinds;
    }
  }

  method SelectWindow(probe: nat -> Answer, taken: set<nat>, min: nat, size: nat, cursor: nat, kinds: seq<PortKind>) returns (window: Option<Selection>)
    requires cursor < size
    ensures window == Window(probe, taken, min, size, cursor, kinds)
  {
    var selected: map<PortKind, nat>, used := map[], taken;
    for k := 0 to |kinds|
      invariant Window(probe, taken, min, size, cursor, kinds[..k]) == Some(Selection(selected, used))
    {
      assert kinds[..k + 1][..k] == kinds[..k];
      var port := FindUsable(probe, used, min, size, cursor);
      if port.None? {
        NoWindow(probe, taken, min, size, cursor, kinds, k + 1);
        return None;
      }
      selected := selected[kinds[k] := port.value];
      used := used + {port.value};
    }
    assert kinds[..|kinds|] == kinds;
    window := Some(Selection(selected, used));
  }

  /** The ports the project holds for the requested kinds. */
  function HeldPorts(t: Tables, p: ProjectId, kinds: seq<PortKind>): set<nat> {
    set port | port in t.allocations && t.allocations[port].project == p && t.allocations[port].kind in kinds
  }

  lemma HeldValues(t: Tables, p: ProjectId, kinds: seq<PortKind>, held: map<PortKind, nat>)
    requires KindsUnique(t.allocations)
    requires forall kind :: kind in held <==> kind in kinds && KindTaken(t.allocations, p, kind)
    requires forall kind | kind in held :: held[kind] in t.allocations && t.allocations[held[kind]] == Allocation(p, kind)
    ensures held.Values == HeldPorts(t, p, kinds)
  {
  }

  /** Every requested kind has the port the answer names. */
  ghost predicate Owned(t: Tables, p: ProjectId, kinds: seq<PortKind>, ports: map<PortKind, nat>) {
    && (forall kind :: kind in ports <==> kind in kinds)
    && (forall kind | kind in ports :: ports[kind] in t.allocations && t.allocations[ports[kind]] == Allocation(p, kind))
  }

  /** Only rows of port_allocations were added. */
  ghost predicate OnlyAdded(before: Tables, after: Tables) {
    && after == before.(allocations := after.allocations)
    && (forall port | port in before.allocations :: port in after.allocations && after.allocations[port] == before.allocations[port])
  }

  /** The kinds got, in order, the first usable ports that some cursor meets. */
  ghost predicate TakesRun(probe: nat -> Answer, used: set<nat>, min: nat, size: nat, kinds: seq<PortKind>, ports: map<PortKind, nat>) {
    exists cursor: nat :: cursor < size && Follows(UsableFrom(probe, used, min, size, cursor, 0), kinds, ports)
  }

  ghost predicate Follows(run: seq<nat>, kinds: seq<PortKind>, ports: map<PortKind, nat>) {
    |kinds| <= |run| && forall i | 0 <= i < |kinds| :: kinds[i] in ports && ports[kinds[i]] == run[i]
  }

  /** ReserveMany: all requested ports become the project's, or no row changes. */
  method ReserveMany(store: CS.Store, p: ProjectId, kinds: seq<PortKind>, min: nat, max: nat, probe: nat -> Answer) returns (ports: Option<map<PortKind, nat>>)
    requires min <= max && EachKindOnce(kinds) && KindsUnique(store.tables.allocations)
    modifies store
    ensures ports.None? ==> store.tables == old(store.tables)
    ensures ports.Some? ==> Owned(store.tables, p, kinds, ports.value) && OnlyAdded(old(store.tables), store.tables)
    // Success, for any number of missing kinds, exactly when their ports fit.
    ensures
      var t := old(store.tables);
      ports.Some? <==>
        || Missing(t, p, kinds) == []
        || Fits(t, probe, HeldPorts(t, p, kinds), min, max - min + 1, |Missing(t, p, kinds)|)
    ensures
      var t := old(store.tables);
      ports.Some? && Missing(t, p, kinds) != [] ==>
        TakesRun(probe, HeldPorts(t, p, kinds), min, max - min + 1, Missing(t, p, kinds), ports.value)
  {
    hide Window, TryReserve, KindsUnique, KindTaken, Fits;
    var t := store.tables;
    var held, missing := SplitKinds(t, p, kinds);
    MissingKinds(t, p, kinds);
    if missing == [] {
      return Some(held);
    }
    var size := max - min + 1;
    var used := held.Values;
    HeldValues(t, p, kinds, held);
    SearchIff(t, p, probe, used, min, size, missing);
    for cursor := 0 to size
      invariant store.tables == t
      invariant Search(t, p, probe, used, min, size, 0, missing) == Search(t, p, probe, used, min, size, cursor, missing)
    {
      var window := SelectWindow(probe, used, min, size, cursor, missing);
      if window.None? {
        return None;
      }
      var reserved := store.TryReservePorts(p, window.value.ports);
      if reserved {
        SearchCommits(t, p, probe, used, min, size, cursor, missing);
        Joined(t, p, kinds, held, missing, window.value.ports);
        WindowTakesPrefix(probe, used, min, size, cursor, missing);
        assert TakesRun(probe, used, min, size, missing, held + window.value.ports);
        return Some(held + window.value.ports);
      }
    }
    return None;
  }

  lemma Joined(t: Tables, p: ProjectId, kinds: seq<PortKind>, held: map<PortKind, nat>, missing: seq<PortKind>, ports: map<PortKind, nat>)
    requires KindsUnique(t.allocations) && TryReserve(t, p, ports).Committed?
    requires forall kind :: kind in held <==> kind in kinds && KindTaken(t.allocations, p, kind)
    requires forall kind | kind in held :: held[kind] in t.allocations && t.allocations[held[kind]] == Allocation(p, kind)
    requires forall kind :: kind in ports <==> kind in missing
    requires forall kind :: kind in missing <==> kind in kinds && !KindTaken(t.allocations, p, kind)
    ensures OnlyAdded(t, TryReserve(t, p, ports).tables)
    ensures Owned(TryReserve(t, p, ports).tables, p, kinds, held + ports)
  {
    hide KindTaken, KindsUnique, TryReserve, OnlyAdded;
    Reserved(t, p, ports);
    assert OnlyAdded(t, TryReserve(t, p, ports).tables);
    var after := TryReserve(t, p, ports).tables;
    forall kind | kind in held ensures held[kind] in after.allocations && after.allocations[held[kind]] == Allocation(p, kind) {
      Kept(t, after, held[kind]);
    }
  }

  lemma Kept(before: Tables, after: Tables, port: nat)
    requires OnlyAdded(before, after) && port in before.allocations
    ensures port in after.allocations && after.allocations[port] == before.allocations[port]
  {
  }

  lemma Reserved(t: Tables, p: ProjectId, ports: map<PortKind, nat>)
    requires KindsUnique(t.allocations) && TryReserve(t, p, ports).Committed?
    ensures OnlyAdded(t, TryReserve(t, p, ports).tables)
    ensures var after := TryReserve(t, p, ports).tables.allocations;
      forall kind | kind in ports :: ports[kind] in after && after[ports[kind]] == Allocation(p, kind)
  {
    KindsAreDistinct();
    ClaimPortsEffect(t, p, ports, KINDS);
  }
}
