/**
 * The list operations a reconcile decides with: which services a change
 * affects, adds and disables.
 */
module ServiceLists {

  /** A Compose service. */
  datatype Service =
    | Db | ApiGateway | Auth | AuthTemplates | Rest | Meta | Studio | Realtime | Storage
    | Imgproxy | Functions | Supavisor | Analytics | Logflare | Vector
    | Envoy | Kong | Caddy | DenoCache | DbConfig
    | Other(name: string)

  function Elements(s: seq<Service>): set<Service> {
    set x | x in s
  }

  /** The entries of a list that belong to a set, in order, duplicates kept. */
  function Kept(a: seq<Service>, s: set<Service>): seq<Service> {
    if a == [] then []
    else Kept(a[..|a| - 1], s) + if a[|a| - 1] in s then [a[|a| - 1]] else []
  }

  lemma {:induction false} KeptElements(a: seq<Service>, s: set<Service>)
    ensures forall x :: x in Kept(a, s) <==> x in a && x in s
  {
    if a != [] {
      KeptElements(a[..|a| - 1], s);
      assert a == a[..|a| - 1] + [a[|a| - 1]];
    }
  }

  lemma {:induction false} KeptNone(a: seq<Service>)
    ensures Kept(a, {}) == []
  {
    if a != [] {
      KeptNone(a[..|a| - 1]);
    }
  }

  ghost predicate Distinct(a: seq<Service>) {
    forall i, j | 0 <= i < j < |a| :: a[i] != a[j]
  }

  /** Filtering a list without duplicates leaves each member once. */
  lemma {:induction false} KeptOnce(a: seq<Service>, s: set<Service>, x: Service)
    requires Distinct(a)
    ensures multiset(Kept(a, s))[x] == if x in a && x in s then 1 else 0
  {
    if a != [] {
      var front, last := a[..|a| - 1], a[|a| - 1];
      KeptOnce(front, s, x);
      assert a == front + [last];
      assert last !in front;
    }
  }

  lemma {:induction false} KeptDistinct(a: seq<Service>, s: set<Service>)
    requires Distinct(a)
    ensures Distinct(Kept(a, s))
  {
    if a != [] {
      var front := a[..|a| - 1];
      KeptDistinct(front, s);
      KeptElements(front, s);
      assert a[|a| - 1] !in front;
    }
  }

  method SetOf(b: seq<Service>) returns (s: set<Service>)
    ensures s == Elements(b)
  {
    s := {};
    for k := 0 to |b|
      invariant s == Elements(b[..k])
    {
      s := s + {b[k]};
      assert b[..k + 1] == b[..k] + [b[k]];
    }
    assert b[..|b|] == b;
  }

  method Difference(a: seq<Service>, b: seq<Service>) returns (out: seq<Service>)
    ensures out == Kept(a, Elements(a) - Elements(b))
    ensures Elements(out) == Elements(a) - Elements(b)
  {
    var s := SetOf(b);
    out := [];
    for k := 0 to |a|
      invariant out == Kept(a[..k], Elements(a) - s)
    {
      assert a[..k + 1][..k] == a[..k];
      if a[k] !in s {
        out := out + [a[k]];
      }
    }
    assert a[..|a|] == a;
    KeptElements(a, Elements(a) - Elements(b));
  }

  method Intersect(a: seq<Service>, b: seq<Service>) returns (out: seq<Service>)
    ensures out == Kept(a, Elements(b))
    ensures Elements(out) == Elements(a) * Elements(b)
  {
    var s := SetOf(b);
    out := [];
    for k := 0 to |a|
      invariant out == Kept(a[..k], s)
    {
      assert a[..k + 1][..k] == a[..k];
      if a[k] in s {
        out := out + [a[k]];
      }
    }
    assert a[..|a|] == a;
    KeptElements(a, Elements(b));
  }

  method Without(a: seq<Service>, name: Service) returns (out: seq<Service>)
    ensures out == Kept(a, Elements(a) - {name})
    ensures Elements(out) == Elements(a) - {name}
  {
    out := [];
    for k := 0 to |a|
      invariant out == Kept(a[..k], Elements(a) - {name})
    {
      assert a[..k + 1][..k] == a[..k];
      if a[k] != name {
        out := out + [a[k]];
      }
    }
    assert a[..|a|] == a;
    KeptElements(a, Elements(a) - {name});
  }

  /** First occurrences, in order. */
  function Firsts(a: seq<Service>): seq<Service> {
    if a == [] then []
    else Firsts(a[..|a| - 1]) + if a[|a| - 1] in a[..|a| - 1] then [] else [a[|a| - 1]]
  }

  lemma {:induction false} FirstsIsASetList(a: seq<Service>)
    ensures Elements(Firsts(a)) == Elements(a)
    ensures forall i, j :: 0 <= i < j < |Firsts(a)| ==> Firsts(a)[i] != Firsts(a)[j]
  {
    if a != [] {
      var front, last := a[..|a| - 1], a[|a| - 1];
      FirstsIsASetList(front);
      assert a == front + [last];
      assert last in front <==> last in Elements(front);
      assert forall x :: x in Firsts(front) <==> x in Elements(Firsts(front));
    }
  }

  method Unique(a: seq<Service>) returns (out: seq<Service>)
    ensures out == Firsts(a)
    ensures Elements(out) == Elements(a)
  {
    var seen: set<Service> := {};
    out := [];
    for k := 0 to |a|
      invariant seen == Elements(a[..k])
      invariant out == Firsts(a[..k])
    {
      assert a[..k + 1][..k] == a[..k];
      assert a[..k + 1] == a[..k] + [a[k]];
      if a[k] !in seen {
        seen := seen + {a[k]};
        out := out + [a[k]];
      }
    }
    assert a[..|a|] == a;
    FirstsIsASetList(a);
  }

  datatype Toggles = Toggles(
    database: bool, gateway: bool, auth: bool, rest: bool, studio: bool,
    postgresMeta: bool, realtime: bool, storage: bool, imgproxy: bool,
    functions: bool, supavisor: bool, logs: bool, vector: bool, directDatabase: bool)

  /** A server configuration, its sections that are only compared kept as fingerprints. */
  datatype Configuration = Configuration(
    siteURL: string, domain: string, supabaseVersion: string,
    studioUsername: string, studioPasswordSet: bool, studioPassword: nat, managedTLS: nat,
    auth: nat, functions: nat, realtime: nat, storage: nat, database: nat, pooler: nat,
    gateway: nat, httpsMode: nat, internalGatewayPort: nat, apiPort: nat,
    directDatabasePort: nat, poolerPort: nat, studioPort: nat,
    services: Toggles,
    revision: int)

  const RESTART_ORDER: seq<Service> := [
    Db, Auth, Rest, Meta, Studio, ApiGateway, Realtime, Storage,
    Imgproxy, Functions, Supavisor, Analytics, Logflare, Vector]

  /** The services whose part of the configuration differs, service by service. */
  predicate Marks(a: Configuration, b: Configuration, name: Service) {
    var s, t := a.services, b.services;
    match name
    case Db =>
      a.database != b.database || a.directDatabasePort != b.directDatabasePort
      || s.directDatabase != t.directDatabase || s.database != t.database
    case Auth => a.siteURL != b.siteURL || a.domain != b.domain || a.auth != b.auth || s.auth != t.auth
    case AuthTemplates => a.auth != b.auth
    case Rest => s.rest != t.rest
    case Meta => s.postgresMeta != t.postgresMeta
    case Studio => a.siteURL != b.siteURL || a.domain != b.domain || a.studioPort != b.studioPort || s.studio != t.studio
    case ApiGateway =>
      a.siteURL != b.siteURL || a.domain != b.domain || a.gateway != b.gateway || a.httpsMode != b.httpsMode
      || a.internalGatewayPort != b.internalGatewayPort || a.apiPort != b.apiPort || s.gateway != t.gateway
    case Realtime => a.realtime != b.realtime || s.realtime != t.realtime
    case Storage =>
      a.storage != b.storage || s.storage != t.storage || (s.imgproxy != t.imgproxy && s.storage && t.storage)
    case Functions => a.functions != b.functions || s.functions != t.functions
    case Supavisor => a.pooler != b.pooler || a.poolerPort != b.poolerPort || s.supavisor != t.supavisor
    case Analytics => s.logs != t.logs
    case Logflare => s.logs != t.logs
    case Vector => s.logs != t.logs || s.vector != t.vector
    case _ => false
  }

  function When(differs: bool, names: set<Service>): set<Service> {
    if differs then names else {}
  }

  /** What a new address or other sign-in settings mark. */
  function MarkedByAddress(a: Configuration, b: Configuration): set<Service> {
    When(a.siteURL != b.siteURL || a.domain != b.domain, {Auth, Studio, ApiGateway})
    + When(a.auth != b.auth, {Auth, AuthTemplates})
  }

  /** What a change of another section marks. */
  function MarkedBySections(a: Configuration, b: Configuration): set<Service> {
    When(a.functions != b.functions, {Functions})
    + When(a.realtime != b.realtime || a.services.realtime != b.services.realtime, {Realtime})
    + When(a.storage != b.storage, {Storage})
    + When(a.services.imgproxy != b.services.imgproxy && a.services.storage && b.services.storage, {Storage})
    + When(a.database != b.database, {Db})
    + When(a.pooler != b.pooler, {Supavisor})
  }

  /** What a change of an address or a port marks. */
  function MarkedByNetwork(a: Configuration, b: Configuration): set<Service> {
    When(a.gateway != b.gateway || a.httpsMode != b.httpsMode || a.internalGatewayPort != b.internalGatewayPort || a.apiPort != b.apiPort,
         {ApiGateway})
    + When(a.directDatabasePort != b.directDatabasePort, {Db})
    + When(a.services.directDatabase != b.services.directDatabase, {Db})
    + When(a.poolerPort != b.poolerPort, {Supavisor})
    + When(a.studioPort != b.studioPort, {Studio})
  }

  /** What a change of a switch marks. */
  function MarkedByToggles(s: Toggles, t: Toggles): set<Service> {
    When(s.gateway != t.gateway, {ApiGateway})
    + When(s.database != t.database, {Db})
    + When(s.auth != t.auth, {Auth})
    + When(s.rest != t.rest, {Rest})
    + When(s.postgresMeta != t.postgresMeta, {Meta})
    + When(s.storage != t.storage, {Storage})
  }

  function MarkedByMoreToggles(s: Toggles, t: Toggles): set<Service> {
    When(s.functions != t.functions, {Functions})
    + When(s.supavisor != t.supavisor, {Supavisor})
    + When(s.logs != t.logs, {Analytics, Logflare, Vector})
    + When(s.vector != t.vector, {Vector})
    + When(s.studio != t.studio, {Studio})
    + When(s.logs != t.logs && s.vector && t.vector, {Vector})
  }

  /** The marked services, change by change. */
  function Touched(a: Configuration, b: Configuration): set<Service> {
    MarkedByAddress(a, b) + MarkedBySections(a, b) + MarkedByNetwork(a, b)
    + MarkedByToggles(a.services, b.services) + MarkedByMoreToggles(a.services, b.services)
  }

  lemma SectionsMark(a: Configuration, b: Configuration, name: Service)
    ensures name in MarkedBySections(a, b) <==>
      match name
      case Functions => a.functions != b.functions
      case Realtime => a.realtime != b.realtime || a.services.realtime != b.services.realtime
      case Storage =>
        a.storage != b.storage || (a.services.imgproxy != b.services.imgproxy && a.services.storage && b.services.storage)
      case Db => a.database != b.database
      case Supavisor => a.pooler != b.pooler
      case _ => false
  {
  }

  lemma AddressMarks(a: Configuration, b: Configuration, name: Service)
    ensures name in MarkedByAddress(a, b) <==>
      match name
      case Auth => a.siteURL != b.siteURL || a.domain != b.domain || a.auth != b.auth
      case Studio => a.siteURL != b.siteURL || a.domain != b.domain
      case ApiGateway => a.siteURL != b.siteURL || a.domain != b.domain
      case AuthTemplates => a.auth != b.auth
      case _ => false
  {
  }

  lemma TogglesMark(s: Toggles, t: Toggles, name: Service)
    ensures name in MarkedByToggles(s, t) <==>
      match name
      case ApiGateway => s.gateway != t.gateway
      case Db => s.database != t.database
      case Auth => s.auth != t.auth
      case Rest => s.rest != t.rest
      case Meta => s.postgresMeta != t.postgresMeta
      case Storage => s.storage != t.storage
      case _ => false
  {
  }

  lemma MoreTogglesMark(s: Toggles, t: Toggles, name: Service)
    ensures name in MarkedByMoreToggles(s, t) <==>
      match name
      case Functions => s.functions != t.functions
      case Supavisor => s.supavisor != t.supavisor
      case Analytics => s.logs != t.logs
      case Logflare => s.logs != t.logs
      case Vector => s.logs != t.logs || s.vector != t.vector
      case Studio => s.studio != t.studio
      case _ => false
  {
  }

  /** Change by change and service by service, the same services are marked. */
  lemma TouchedIff(a: Configuration, b: Configuration, name: Service)
    ensures name in Touched(a, b) <==> Marks(a, b, name)
  {
    hide MarkedByAddress, MarkedBySections, MarkedByToggles, MarkedByMoreToggles;
    AddressMarks(a, b, name);
    SectionsMark(a, b, name);
    TogglesMark(a.services, b.services, name);
    MoreTogglesMark(a.services, b.services, name);
  }

  /** The restart list: the touched services that have a place in the restart order, in that order. */
  method AffectedServices(before: Configuration, after: Configuration) returns (result: seq<Service>)
    ensures result == Affected(before, after)
    ensures Elements(result) == Touched(before, after) * Elements(RESTART_ORDER)
  {
    hide Touched;
    var touched := Touched(before, after);
    result := [];
    for k := 0 to |RESTART_ORDER|
      invariant result == Kept(RESTART_ORDER[..k], touched)
    {
      assert RESTART_ORDER[..k + 1][..k] == RESTART_ORDER[..k];
      if RESTART_ORDER[k] in touched {
        result := result + [RESTART_ORDER[k]];
      }
    }
    assert RESTART_ORDER[..|RESTART_ORDER|] == RESTART_ORDER;
    KeptElements(RESTART_ORDER, touched);
  }

  function Affected(before: Configuration, after: Configuration): seq<Service> {
    Kept(RESTART_ORDER, Touched(before, after))
  }

  /** What restarts each service; nothing else restarts any. */
  lemma AffectedIff(a: Configuration, b: Configuration)
    ensures var s, t, list := a.services, b.services, Affected(a, b);
      && (Db in list <==> a.database != b.database || a.directDatabasePort != b.directDatabasePort
                          || s.directDatabase != t.directDatabase || s.database != t.database)
      && (Auth in list <==> a.siteURL != b.siteURL || a.domain != b.domain || a.auth != b.auth || s.auth != t.auth)
      && (Rest in list <==> s.rest != t.rest)
      && (Meta in list <==> s.postgresMeta != t.postgresMeta)
      && (Studio in list <==> a.siteURL != b.siteURL || a.domain != b.domain || a.studioPort != b.studioPort || s.studio != t.studio)
      && (ApiGateway in list <==> a.siteURL != b.siteURL || a.domain != b.domain || a.gateway != b.gateway || a.httpsMode != b.httpsMode
                                  || a.internalGatewayPort != b.internalGatewayPort || a.apiPort != b.apiPort || s.gateway != t.gateway)
      && (Realtime in list <==> a.realtime != b.realtime || s.realtime != t.realtime)
      && (Storage in list <==> a.storage != b.storage || s.storage != t.storage || (s.imgproxy != t.imgproxy && s.storage && t.storage))
      && (Functions in list <==> a.functions != b.functions || s.functions != t.functions)
      && (Supavisor in list <==> a.pooler != b.pooler || a.poolerPort != b.poolerPort || s.supavisor != t.supavisor)
      && (Analytics in list <==> s.logs != t.logs)
      && (Logflare in list <==> s.logs != t.logs)
      && (Vector in list <==> s.logs != t.logs || s.vector != t.vector)
  {
    hide Affected, Marks, Place;
    AffectedIffFirst(a, b);
    AffectedIffLast(a, b);
  }

  lemma AffectedIffFirst(a: Configuration, b: Configuration)
    ensures var s, t, list := a.services, b.services, Affected(a, b);
      && (Db in list <==> a.database != b.database || a.directDatabasePort != b.directDatabasePort
                          || s.directDatabase != t.directDatabase || s.database != t.database)
      && (Auth in list <==> a.siteURL != b.siteURL || a.domain != b.domain || a.auth != b.auth || s.auth != t.auth)
      && (Rest in list <==> s.rest != t.rest)
      && (Meta in list <==> s.postgresMeta != t.postgresMeta)
      && (Studio in list <==> a.siteURL != b.siteURL || a.domain != b.domain || a.studioPort != b.studioPort || s.studio != t.studio)
      && (ApiGateway in list <==> a.siteURL != b.siteURL || a.domain != b.domain || a.gateway != b.gateway || a.httpsMode != b.httpsMode
                                  || a.internalGatewayPort != b.internalGatewayPort || a.apiPort != b.apiPort || s.gateway != t.gateway)
  {
    hide Affected;
    AffectedMeansMarked(a, b, Db);
    AffectedMeansMarked(a, b, Auth);
    AffectedMeansMarked(a, b, Rest);
    AffectedMeansMarked(a, b, Meta);
    AffectedMeansMarked(a, b, Studio);
    AffectedMeansMarked(a, b, ApiGateway);
  }

  lemma AffectedIffLast(a: Configuration, b: Configuration)
    ensures var s, t, list := a.services, b.services, Affected(a, b);
      && (Realtime in list <==> a.realtime != b.realtime || s.realtime != t.realtime)
      && (Storage in list <==> a.storage != b.storage || s.storage != t.storage || (s.imgproxy != t.imgproxy && s.storage && t.storage))
      && (Functions in list <==> a.functions != b.functions || s.functions != t.functions)
      && (Supavisor in list <==> a.pooler != b.pooler || a.poolerPort != b.poolerPort || s.supavisor != t.supavisor)
      && (Analytics in list <==> s.logs != t.logs)
      && (Logflare in list <==> s.logs != t.logs)
      && (Vector in list <==> s.logs != t.logs || s.vector != t.vector)
  {
    hide Affected;
    AffectedMeansMarked(a, b, Realtime);
    AffectedMeansMarked(a, b, Storage);
    AffectedMeansMarked(a, b, Functions);
    AffectedMeansMarked(a, b, Supavisor);
    AffectedMeansMarked(a, b, Analytics);
    AffectedMeansMarked(a, b, Logflare);
    AffectedMeansMarked(a, b, Vector);
  }

  /** Nothing but these is ever restarted. */
  lemma OnlyTheseRestart(a: Configuration, b: Configuration, name: Service)
    requires name in Affected(a, b)
    ensures name in {Db, Auth, Rest, Meta, Studio, ApiGateway, Realtime, Storage, Functions, Supavisor, Analytics, Logflare, Vector}
  {
    AffectedMeansMarked(a, b, name);
  }

  lemma AffectedMeansMarked(a: Configuration, b: Configuration, name: Service)
    ensures name in Affected(a, b) <==> Place(name) < 14 && Marks(a, b, name)
  {
    hide Marks, Touched;
    KeptElements(RESTART_ORDER, Touched(a, b));
    TouchedIff(a, b, name);
    RestartOrderIsComplete(name);
  }

  lemma RestartOrderIsComplete(name: Service)
    ensures name in RESTART_ORDER <==> Place(name) < 14
    ensures forall i | 0 <= i < |RESTART_ORDER| :: Place(RESTART_ORDER[i]) == i
  {
    if Place(name) < 14 {
      assert RESTART_ORDER[Place(name)] == name;
    }
  }

  /** The place of a service in the restart order. */
  function Place(name: Service): nat {
    match name
    case Db => 0
    case Auth => 1
    case Rest => 2
    case Meta => 3
    case Studio => 4
    case ApiGateway => 5
    case Realtime => 6
    case Storage => 7
    case Imgproxy => 8
    case Functions => 9
    case Supavisor => 10
    case Analytics => 11
    case Logflare => 12
    case Vector => 13
    case _ => 14
  }

  ghost predicate Ordered(a: seq<Service>) {
    forall i, j | 0 <= i < j < |a| :: Place(a[i]) < Place(a[j])
  }

  lemma {:induction false} KeptOrdered(a: seq<Service>, s: set<Service>)
    requires Ordered(a)
    ensures Ordered(Kept(a, s))
  {
    if a != [] {
      var front, last := a[..|a| - 1], a[|a| - 1];
      KeptOrdered(front, s);
      KeptElements(front, s);
      hide Place;
      forall x | x in front ensures Place(x) < Place(last) {
        var i :| 0 <= i < |front| && front[i] == x;
        assert a[i] == x;
      }
    }
  }

  /** The database restarts first and the log collector last. */
  lemma AffectedInOrder(a: Configuration, b: Configuration)
    ensures Ordered(Affected(a, b))
    ensures Db in Affected(a, b) ==> Affected(a, b)[0] == Db
  {
    hide Touched;
    RestartOrderIsComplete(Db);
    KeptOrdered(RESTART_ORDER, Touched(a, b));
  }

  /**
   * A change and its reversal restart the same services; no change restarts
   * none; and the template server is never restarted, because it has no place
   * in the restart order.
   */
  lemma AffectedIsSymmetric(a: Configuration, b: Configuration)
    ensures Affected(a, b) == Affected(b, a)
    ensures Affected(a, a) == []
    ensures AuthTemplates !in Affected(a, b)
  {
    hide Touched;
    forall name: Service
      ensures name in Touched(a, b) <==> name in Touched(b, a)
      ensures name !in Touched(a, a)
    {
      TouchedIff(a, b, name);
      TouchedIff(b, a, name);
      TouchedIff(a, a, name);
    }
    assert Touched(a, b) == Touched(b, a) && Touched(a, a) == {};
    AffectedMeansMarked(a, b, AuthTemplates);
    KeptNone(RESTART_ORDER);
  }

  /** Two configurations agree on everything the restart list is computed from. */
  ghost predicate SameCompared(a: Configuration, b: Configuration) {
    && b == a.(
         revision := b.revision, supabaseVersion := b.supabaseVersion, managedTLS := b.managedTLS,
         studioUsername := b.studioUsername, studioPasswordSet := b.studioPasswordSet, studioPassword := b.studioPassword,
         services := a.services.(imgproxy := b.services.imgproxy))
    && (a.services.imgproxy == b.services.imgproxy || !a.services.storage || !b.services.storage)
  }

  /**
   * Nothing is touched exactly when the two configurations differ at most in
   * their revision, the Supabase version, the Studio credentials, the managed
   * certificate and, unless storage is on in both, the image proxy's switch.
   */
  lemma UntouchedIff(a: Configuration, b: Configuration)
    ensures Touched(a, b) == {} <==> SameCompared(a, b)
  {
    hide Touched;
    forall name: Service ensures name in Touched(a, b) <==> Marks(a, b, name) {
      TouchedIff(a, b, name);
    }
    if Touched(a, b) == {} {
      hide Marks;
      forall name: Service ensures !Marks(a, b, name) {
        assert name !in Touched(a, b);
      }
      UnmarkedIsSame(a, b);
    } else {
      var name :| name in Touched(a, b);
      assert Marks(a, b, name);
    }
  }

  lemma UnmarkedIsSame(a: Configuration, b: Configuration)
    requires forall name :: !Marks(a, b, name)
    ensures SameCompared(a, b)
  {
    hide Marks;
    UnmarkedFirst(a, b);
    UnmarkedLast(a, b);
  }

  lemma UnmarkedFirst(a: Configuration, b: Configuration)
    requires !Marks(a, b, Db) && !Marks(a, b, Auth) && !Marks(a, b, Rest) && !Marks(a, b, Meta) && !Marks(a, b, Studio) && !Marks(a, b, ApiGateway)
    ensures a.database == b.database && a.directDatabasePort == b.directDatabasePort && a.siteURL == b.siteURL && a.domain == b.domain
    ensures a.auth == b.auth && a.studioPort == b.studioPort && a.gateway == b.gateway && a.httpsMode == b.httpsMode
    ensures a.internalGatewayPort == b.internalGatewayPort && a.apiPort == b.apiPort
    ensures var s, t := a.services, b.services;
      && s.directDatabase == t.directDatabase && s.database == t.database && s.auth == t.auth && s.rest == t.rest
      && s.postgresMeta == t.postgresMeta && s.studio == t.studio && s.gateway == t.gateway
  {
  }

  lemma UnmarkedLast(a: Configuration, b: Configuration)
    requires !Marks(a, b, Realtime) && !Marks(a, b, Storage) && !Marks(a, b, Functions)
    requires !Marks(a, b, Supavisor) && !Marks(a, b, Analytics) && !Marks(a, b, Vector)
    ensures a.realtime == b.realtime && a.storage == b.storage && a.functions == b.functions && a.pooler == b.pooler && a.poolerPort == b.poolerPort
    ensures var s, t := a.services, b.services;
      && s.realtime == t.realtime && s.storage == t.storage && (s.imgproxy == t.imgproxy || !s.storage || !t.storage)
      && s.functions == t.functions && s.supavisor == t.supavisor && s.logs == t.logs && s.vector == t.vector
  {
  }

  /** A new Supabase version alone restarts nothing. */
  lemma VersionAloneRestartsNothing(a: Configuration, version: string)
    ensures Affected(a, a.(supabaseVersion := version)) == []
  {
    UntouchedIff(a, a.(supabaseVersion := version));
    KeptNone(RESTART_ORDER);
  }

  /** The names whose switch is on, in order. */
  function Chosen(switches: seq<(Service, bool)>): seq<Service> {
    if switches == [] then []
    else
      var last := switches[|switches| - 1];
      Chosen(switches[..|switches| - 1]) + if last.1 then [last.0] else []
  }

  lemma {:induction false} ChosenIff(switches: seq<(Service, bool)>)
    ensures forall name :: name in Chosen(switches) <==> (name, true) in switches
  {
    if switches != [] {
      var front, last := switches[..|switches| - 1], switches[|switches| - 1];
      ChosenIff(front);
      assert switches == front + [last];
    }
  }

  ghost predicate EachOnce(switches: seq<(Service, bool)>) {
    forall i, j | 0 <= i < j < |switches| :: switches[i].0 != switches[j].0
  }

  /** A name with one switch is chosen exactly when that is on. */
  lemma ChosenAt(switches: seq<(Service, bool)>, i: nat)
    requires EachOnce(switches) && i < |switches|
    ensures switches[i].0 in Chosen(switches) <==> switches[i].1
  {
    ChosenIff(switches);
    if (switches[i].0, true) in switches {
      var j :| 0 <= j < |switches| && switches[j] == (switches[i].0, true);
      assert i == j;
    }
  }

  lemma {:induction false} ChosenDistinct(switches: seq<(Service, bool)>)
    requires EachOnce(switches)
    ensures Distinct(Chosen(switches))
  {
    if switches != [] {
      var front, last := switches[..|switches| - 1], switches[|switches| - 1];
      ChosenDistinct(front);
      ChosenIff(front);
      assert (last.0, true) !in front;
    }
  }

  /** The Compose services a configuration enables. */
  function EnabledServices(c: Configuration): seq<Service> {
    Chosen(Switches(c.services))
  }

  function Switches(s: Toggles): seq<(Service, bool)> {
    [ (Db, s.database), (ApiGateway, s.gateway), (Auth, s.auth), (AuthTemplates, s.auth), (Rest, s.rest),
      (Meta, s.postgresMeta), (Studio, s.studio), (Realtime, s.realtime), (Storage, s.storage), (Imgproxy, s.imgproxy),
      (Functions, s.functions), (Supavisor, s.supavisor), (Analytics, s.logs), (Vector, s.vector)]
  }

  /** A service is enabled exactly when its switch is on; the templates of the auth mails come with auth. */
  lemma EnabledIff(c: Configuration)
    ensures var s, list := c.services, EnabledServices(c);
      && (Db in list <==> s.database) && (ApiGateway in list <==> s.gateway)
      && (Auth in list <==> s.auth) && (AuthTemplates in list <==> s.auth)
      && (Rest in list <==> s.rest) && (Meta in list <==> s.postgresMeta) && (Studio in list <==> s.studio)
      && (Realtime in list <==> s.realtime) && (Storage in list <==> s.storage) && (Imgproxy in list <==> s.imgproxy)
      && (Functions in list <==> s.functions) && (Supavisor in list <==> s.supavisor)
      && (Analytics in list <==> s.logs) && (Vector in list <==> s.vector)
    ensures Distinct(EnabledServices(c))
  {
    SwitchesOnce(c.services);
    ChosenDistinct(Switches(c.services));
    hide Chosen, EachOnce, Distinct;
    var switches := Switches(c.services);
    ChosenAt(switches, 0);
    ChosenAt(switches, 1);
    ChosenAt(switches, 2);
    ChosenAt(switches, 3);
    ChosenAt(switches, 4);
    ChosenAt(switches, 5);
    ChosenAt(switches, 6);
    ChosenAt(switches, 7);
    ChosenAt(switches, 8);
    ChosenAt(switches, 9);
    ChosenAt(switches, 10);
    ChosenAt(switches, 11);
    ChosenAt(switches, 12);
    ChosenAt(switches, 13);
  }

  lemma SwitchesOnce(s: Toggles)
    ensures EachOnce(Switches(s))
  {
  }
}
