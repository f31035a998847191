/**
 * Choosing host ports for a project: the ports an update would need, and the
 * ports an installation reserves.  The host probe is taken to be stable.
 */
module PortAllocation {
  import opened Common
  import opened Configuration
  import opened ConfigurationTables
  import opened ConfigurationInvariants
  import opened ConfigurationRuns

  datatype Answer = Available | Occupied | Unknown

  datatype Choice = Chosen(ports: map<PortKind, nat>) | Exhausted | ProbeFailed(port: nat)

  /** The port a project already holds for a kind. */
  method ReservedPort(t: Tables, p: ProjectId, kind: PortKind) returns (port: Option<nat>)
    ensures port.Some? <==> KindTaken(t.allocations, p, kind)
    ensures port.Some? ==> port.value in t.allocations && t.allocations[port.value] == Allocation(p, kind)
  {
    if KindTaken(t.allocations, p, kind) {
      var held :| held in t.allocations && t.allocations[held] == Allocation(p, kind);
      return Some(held);
    }
    return None;
  }

  /** A port that is allocated, or reserved by a pending configuration. */
  predicate PortInUse(t: Tables, port: nat) {
    port in t.allocations || Port(port) in t.reservations
  }

  predicate Free(t: Tables, probe: nat -> Answer, port: nat) {
    probe(port) == Available && !PortInUse(t, port)
  }

  /** The free ports from lo up to but not including hi, lowest first. */
  function FreePorts(t: Tables, probe: nat -> Answer, lo: nat, hi: nat): seq<nat>
    requires lo <= hi
    decreases hi
  {
    if lo == hi then []
    else FreePorts(t, probe, lo, hi - 1) + if Free(t, probe, hi - 1) then [hi - 1] else []
  }

  lemma {:induction false} FreePortsAscend(t: Tables, probe: nat -> Answer, lo: nat, hi: nat)
    requires lo <= hi
    ensures forall port :: port in FreePorts(t, probe, lo, hi) <==> lo <= port < hi && Free(t, probe, port)
    ensures forall i, j :: 0 <= i < j < |FreePorts(t, probe, lo, hi)| ==>
      FreePorts(t, probe, lo, hi)[i] < FreePorts(t, probe, lo, hi)[j]
    decreases hi
  {
    if lo < hi {
      FreePortsAscend(t, probe, lo, hi - 1);
      var front := FreePorts(t, probe, lo, hi - 1);
      forall i | 0 <= i < |front| ensures front[i] < hi - 1 {
        assert front[i] in front;
      }
    }
  }

  /** A longer range only appends to the free ports. */
  lemma {:induction false} FreePortsGrow(t: Tables, probe: nat -> Answer, lo: nat, mid: nat, hi: nat)
    requires lo <= mid <= hi
    ensures FreePorts(t, probe, lo, mid) <= FreePorts(t, probe, lo, hi)
    decreases hi
  {
    if mid < hi {
      FreePortsGrow(t, probe, lo, mid, hi - 1);
    }
  }

  /** The requested kinds without a port of their own, in request order. */
  function Missing(t: Tables, p: ProjectId, kinds: seq<PortKind>): seq<PortKind> {
    if kinds == [] then []
    else
      var last := kinds[|kinds| - 1];
      Missing(t, p, kinds[..|kinds| - 1]) + if KindTaken(t.allocations, p, last) then [] else [last]
  }

  lemma {:induction false} MissingKinds(t: Tables, p: ProjectId, kinds: seq<PortKind>)
    ensures forall kind :: kind in Missing(t, p, kinds) <==> kind in kinds && !KindTaken(t.allocations, p, kind)
    ensures EachKindOnce(kinds) ==> EachKindOnce(Missing(t, p, kinds))
  {
    if kinds != [] {
      var front, last := kinds[..|kinds| - 1], kinds[|kinds| - 1];
      MissingKinds(t, p, front);
      assert kinds == front + [last];
      if EachKindOnce(kinds) {
        assert EachKindOnce(front) && last !in front;
      }
    }
  }

  /** Splits the request into ports already held and kinds still missing. */
  method SplitKinds(t: Tables, p: ProjectId, kinds: seq<PortKind>) returns (held: map<PortKind, nat>, missing: seq<PortKind>)
    ensures missing == Missing(t, p, kinds)
    ensures forall kind :: kind in held <==> kind in kinds && KindTaken(t.allocations, p, kind)
    ensures forall kind | kind in held :: held[kind] in t.allocations && t.allocations[held[kind]] == Allocation(p, kind)
  {
    held, missing := map[], [];
    for k := 0 to |kinds|
      invariant missing == Missing(t, p, kinds[..k])
      invariant forall kind :: kind in held <==> kind in kinds[..k] && KindTaken(t.allocations, p, kind)
      invariant forall kind | kind in held :: held[kind] in t.allocations && t.allocations[held[kind]] == Allocation(p, kind)
    {
      assert kinds[..k + 1][..k] == kinds[..k];
      assert kinds[..k + 1] == kinds[..k] + [kinds[k]];
      var kind := kinds[k];
      if kind !in held {
        var port := ReservedPort(t, p, kind);
        match port
        case Some(value) => held := held[kind := value];
        case None => missing := missing + [kind];
      }
    }
    assert kinds[..|kinds|] == kinds;
  }

  /** The first n missing kinds take the first n free ports. */
  function Assign(held: map<PortKind, nat>, missing: seq<PortKind>, free: seq<nat>, n: nat): map<PortKind, nat>
    requires n <= |missing| && n <= |free|
  {
    if n == 0 then held else Assign(held, missing, free, n - 1)[missing[n - 1] := free[n - 1]]
  }

  lemma {:induction false} AssignEffect(held: map<PortKind, nat>, missing: seq<PortKind>, free: seq<nat>, n: nat)
    requires n <= |missing| && n <= |free| && EachKindOnce(missing)
    requires forall kind :: kind in missing ==> kind !in held
    ensures var ports := Assign(held, missing, free, n);
      && (forall kind :: kind in ports <==> kind in held || kind in missing[..n])
      && (forall kind | kind in held :: ports[kind] == held[kind])
      && (forall i | 0 <= i < n :: missing[i] in ports && ports[missing[i]] == free[i])
  {
    if n > 0 {
      AssignEffect(held, missing, free, n - 1);
      var before, kind := Assign(held, missing, free, n - 1), missing[n - 1];
      var ports := before[kind := free[n - 1]];
      assert Assign(held, missing, free, n) == ports;
      assert forall i | 0 <= i < n - 1 :: missing[i] != kind;
      assert kind in missing;
      hide Assign, EachKindOnce;
      assert missing[..n] == missing[..n - 1] + [kind];
      assert forall k :: k in ports <==> k in held || k in missing[..n];
      assert forall i | 0 <= i < n :: missing[i] in ports && ports[missing[i]] == free[i];
    }
  }

  lemma AssignStart(held: map<PortKind, nat>, missing: seq<PortKind>, free: seq<nat>)
    ensures Assign(held, missing, free, 0) == held
  {
  }

  lemma AssignStep(held: map<PortKind, nat>, missing: seq<PortKind>, free: seq<nat>, n: nat)
    requires n < |missing| && n < |free|
    ensures Assign(held, missing, free, n + 1) == Assign(held, missing, free, n)[missing[n] := free[n]]
  {
  }

  /** One pass over the range: each missing kind takes the next free port. */
  method FillMissing(t: Tables, held: map<PortKind, nat>, missing: seq<PortKind>, min: nat, max: nat, probe: nat -> Answer) returns (choice: Choice)
    requires min <= max + 1 && missing != []
    requires forall port | port in held.Values :: port in t.allocations
    ensures choice.Chosen? ==>
      var free := FreePorts(t, probe, min, max + 1);
      |missing| <= |free| && choice.ports == Assign(held, missing, free, |missing|)
    ensures choice.Exhausted? ==> |FreePorts(t, probe, min, max + 1)| < |missing|
    ensures choice.ProbeFailed? ==> min <= choice.port <= max && probe(choice.port) == Unknown
  {
    hide Assign;
    AssignStart(held, missing, FreePorts(t, probe, min, max + 1));
    var ports, used := held, held.Values;
    ghost var free := FreePorts(t, probe, min, max + 1);
    var done, port := 0, min;
    while port <= max
      invariant min <= port <= max + 1
      invariant done == |FreePorts(t, probe, min, port)| < |missing|
      invariant FreePorts(t, probe, min, port) <= free
      invariant ports == Assign(held, missing, free, done)
      invariant forall u | u in used :: u in t.allocations || u < port
    {
      FreePortsGrow(t, probe, min, port + 1, max + 1);
      if port !in used && probe(port) == Unknown {
        return ProbeFailed(port);
      }
      if port !in used && Free(t, probe, port) {
        assert free[done] == port;
        AssignStep(held, missing, free, done);
        ports := ports[missing[done] := port];
        used := used + {port};
        done := done + 1;
        if done == |missing| {
          return Chosen(ports);
        }
      }
      port := port + 1;
    }
    return Exhausted;
  }

  /** CandidateMany: held ports are reused, each missing kind gets the next lowest free port. */
  method CandidateMany(t: Tables, p: ProjectId, kinds: seq<PortKind>, min: nat, max: nat, probe: nat -> Answer) returns (choice: Choice)
    requires min <= max + 1 && EachKindOnce(kinds)
    ensures choice.Chosen? ==> ChosenWell(t, p, kinds, min, max, probe, choice.ports)
    ensures choice.Exhausted? ==> |FreePorts(t, probe, min, max + 1)| < |Missing(t, p, kinds)|
    ensures choice.ProbeFailed? ==> min <= choice.port <= max && probe(choice.port) == Unknown
  {
    var held, missing := SplitKinds(t, p, kinds);
    MissingKinds(t, p, kinds);
    assert missing[..|missing|] == missing;
    if missing == [] {
      return Chosen(held);
    }
    choice := FillMissing(t, held, missing, min, max, probe);
    if choice.Chosen? {
      AssignEffect(held, missing, FreePorts(t, probe, min, max + 1), |missing|);
    }
  }

  /** What CandidateMany promises about the ports it chose. */
  ghost predicate ChosenWell(t: Tables, p: ProjectId, kinds: seq<PortKind>, min: nat, max: nat, probe: nat -> Answer, ports: map<PortKind, nat>)
    requires min <= max + 1
  {
    var missing, free := Missing(t, p, kinds), FreePorts(t, probe, min, max + 1);
    && (forall kind :: kind in ports <==> kind in kinds)
    && (forall kind | kind in ports && KindTaken(t.allocations, p, kind) ::
          ports[kind] in t.allocations && t.allocations[ports[kind]] == Allocation(p, kind))
    && |missing| <= |free|
    && (forall i | 0 <= i < |missing| :: missing[i] in ports && ports[missing[i]] == free[i])
  }

  lemma FreeIsUnused(t: Tables, probe: nat -> Answer, lo: nat, hi: nat)
    requires lo <= hi
    ensures var free := FreePorts(t, probe, lo, hi);
      && (forall port | port in free :: !PortInUse(t, port))
      && (forall i, j | 0 <= i < j < |free| :: free[i] != free[j])
  {
    FreePortsAscend(t, probe, lo, hi);
  }

  /** A chosen port is the project's own, or the free port of the kind's place among the missing. */
  lemma ChosenPort(t: Tables, p: ProjectId, kinds: seq<PortKind>, min: nat, max: nat, probe: nat -> Answer, ports: map<PortKind, nat>, kind: PortKind) returns (i: nat)
    requires min <= max + 1 && ChosenWell(t, p, kinds, min, max, probe, ports) && kind in ports
    ensures KindTaken(t.allocations, p, kind) ==>
      ports[kind] in t.allocations && t.allocations[ports[kind]] == Allocation(p, kind)
    ensures !KindTaken(t.allocations, p, kind) ==>
      var missing, free := Missing(t, p, kinds), FreePorts(t, probe, min, max + 1);
      i < |missing| && i < |free| && missing[i] == kind && ports[kind] == free[i] && !PortInUse(t, ports[kind])
  {
    hide Missing, FreePorts;
    i := 0;
    if !KindTaken(t.allocations, p, kind) {
      MissingKinds(t, p, kinds);
      FreeIsUnused(t, probe, min, max + 1);
      var missing := Missing(t, p, kinds);
      assert kind in missing;
      i :| 0 <= i < |missing| && missing[i] == kind;
      assert FreePorts(t, probe, min, max + 1)[i] in FreePorts(t, probe, min, max + 1);
    }
  }

  /** The chosen ports differ, and none is held by another project when ports are exclusive. */
  lemma ChosenPortsAreOurs(t: Tables, p: ProjectId, kinds: seq<PortKind>, min: nat, max: nat, probe: nat -> Answer, ports: map<PortKind, nat>)
    requires min <= max + 1 && EachKindOnce(kinds) && ChosenWell(t, p, kinds, min, max, probe, ports)
    requires PortsExclusive(t.allocations, t.reservations)
    ensures forall a, b | a in ports && b in ports && a != b :: ports[a] != ports[b]
    ensures forall kind | kind in ports :: !HeldByOther(t, p, Port(ports[kind]))
  {
    hide Missing, FreePorts, KindTaken, ChosenWell;
    FreeIsUnused(t, probe, min, max + 1);
    forall a, b | a in ports && b in ports && a != b ensures ports[a] != ports[b] {
      var i := ChosenPort(t, p, kinds, min, max, probe, ports, a);
      var j := ChosenPort(t, p, kinds, min, max, probe, ports, b);
      assert i < j || j < i || i == j;
    }
    forall kind | kind in ports ensures !HeldByOther(t, p, Port(ports[kind])) {
      var _ := ChosenPort(t, p, kinds, min, max, probe, ports, kind);
    }
  }

  /**
   * When nothing intervenes, a configuration whose ports were just chosen is
   * never refused by admission because of a port: the only conflict left is
   * its domain.
   */
  lemma ChosenPortsPassAdmission(t: Tables, kinds: seq<PortKind>, min: nat, max: nat, probe: nat -> Answer, ports: map<PortKind, nat>, a: Admission, row: Option<OperationId>)
    requires min <= max + 1 && EachKindOnce(kinds) && ChosenWell(t, a.project, kinds, min, max, probe, ports)
    requires Inv(t)
    requires forall e | e in PortEntries(a.configuration) && e.Claims() :: e.kind in ports && ports[e.kind] == e.port
    requires !HeldByOther(t, a.project, Domain(a.configuration.domain))
    ensures AdmitError(t, a, row) != Some(Conflict)
  {
    hide ChosenWell, PortEntries;
    ChosenPortsAreOurs(t, a.project, kinds, min, max, probe, ports);
    forall r | r in Resources(a.configuration) ensures !HeldByOther(t, a.project, r) {
      if r.Port? {
        var e :| e in PortEntries(a.configuration) && e.Claims() && e.port == r.port;
      }
    }
  }

  // ---------------------------------------------------------------------------------------------
  // Installation
  // ---------------------------------------------------------------------------------------------

  ghost predicate FreeFor(t: Tables, p: ProjectId, kind: PortKind, port: nat) {
    Port(port) !in t.reservations && port !in t.allocations && !KindTaken(t.allocations, p, kind)
  }

  /** Reservable, for the listed kinds only. */
  ghost predicate ReservableFor(t: Tables, p: ProjectId, ports: map<PortKind, nat>, kinds: seq<PortKind>) {
    && (forall k | k in kinds && k in ports :: FreeFor(t, p, k, ports[k]))
    && (forall a, b | a in kinds && b in kinds && a in ports && b in ports && a != b :: ports[a] != ports[b])
  }

  /** After claiming the front of a list, the next claim is refused for exactly these reasons. */
  lemma ClaimIff(t: Tables, p: ProjectId, ports: map<PortKind, nat>, front: seq<PortKind>, claimed: map<nat, Allocation>, last: PortKind)
    requires AllClaimed(t, p, ports, front, claimed) && last !in front && last in ports
    ensures ClaimPort(t, claimed, p, last, ports[last]).Some? <==>
      FreeFor(t, p, last, ports[last]) && forall k | k in front && k in ports :: ports[k] != ports[last]
  {
  }

  lemma {:induction false} ClaimsIff(t: Tables, p: ProjectId, ports: map<PortKind, nat>, kinds: seq<PortKind>)
    requires EachKindOnce(kinds) && KindsUnique(t.allocations)
    ensures ClaimPorts(t, p, ports, kinds).Some? <==> ReservableFor(t, p, ports, kinds)
  {
    if kinds != [] {
      hide KindsUnique, FreeFor, ClaimPort;
      var front, last := kinds[..|kinds| - 1], kinds[|kinds| - 1];
      assert kinds == front + [last] && last !in front;
      ClaimsIff(t, p, ports, front);
      ClaimPortsEffect(t, p, ports, front);
      if ClaimPorts(t, p, ports, front).Some? && last in ports {
        ClaimIff(t, p, ports, front, ClaimPorts(t, p, ports, front).value, last);
      }
    }
  }

  /** TryReservePorts commits exactly the sets of free, distinct ports for kinds without a port. */
  lemma ReservesIff(t: Tables, p: ProjectId, ports: map<PortKind, nat>)
    requires KindsUnique(t.allocations)
    ensures TryReserve(t, p, ports).Committed? <==> Reservable(t, p, ports)
  {
    KindsAreDistinct();
    ClaimsIff(t, p, ports, KINDS);
  }
}
