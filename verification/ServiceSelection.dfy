/**
 * Which Compose services the Provisioner's renderer emits for a configuration,
 * and the Manager's check that they are the ones it asked for.
 */
module ServiceSelection {
  import opened ServiceLists

  datatype Dependency = Named(service: Service) | NotAName

  /** depends_on of a template service: absent, a mapping, a list, or a single name. */
  datatype Dependencies =
    | NoDependencies
    | Mapped(names: set<Service>)
    | Listed(entries: seq<Dependency>)
    | Scalar(name: Service)

  /** An entry under services in the template. */
  datatype Template = Null | NotMapping | Mapping(pinned: bool, dependsOn: Dependencies)

  datatype Rendering = Rendered(services: map<Service, Dependencies>, enabled: seq<Service>) | Refused

  predicate Available(template: map<Service, Template>, name: Service) {
    name in template && !template[name].Null?
  }

  /** validateServiceConfiguration: capabilities that need another one have it. */
  predicate Consistent(s: Toggles, caddy: bool) {
    && (s.auth || s.rest || s.realtime || s.storage || s.functions || s.studio || caddy ==> s.gateway)
    && (s.storage ==> s.database && s.rest)
    && (s.directDatabase || s.realtime || s.supavisor ==> s.database)
    && (s.logs ==> s.database && s.vector)
    && (s.vector ==> s.logs)
    && (s.studio ==> s.postgresMeta)
    && (s.imgproxy ==> s.storage)
  }

  predicate IsGateway(name: Service) {
    name.ApiGateway? || name.Envoy? || name.Kong? || name.Caddy?
  }

  /** Compose services that are no capability of their own. */
  predicate IsHelper(name: Service) {
    name.AuthTemplates? || name.DenoCache? || name.DbConfig? || name.Logflare?
  }

  /** The switch behind each service that is no gateway. */
  predicate Wants(s: Toggles, name: Service) {
    match name
    case Db => s.database
    case Auth => s.auth
    case Rest => s.rest
    case Studio => s.studio
    case Meta => s.postgresMeta
    case Realtime => s.realtime
    case Storage => s.storage
    case Imgproxy => s.imgproxy
    case Functions => s.functions
    case Supavisor => s.supavisor
    case Analytics => s.logs
    case Vector => s.vector
    case Logflare => s.logs
    case DenoCache => s.functions
    case DbConfig => s.supavisor
    case _ => false
  }

  /** The order in which selectServices considers them. */
  const SELECTION: seq<Service> := [
    Db, Auth, Rest, Realtime, Storage, Imgproxy, Meta, Studio, Functions, Supavisor,
    Analytics, Logflare, Vector, DenoCache, DbConfig]

  lemma SelectionIsComplete(s: Toggles, name: Service)
    requires Wants(s, name)
    ensures name in SELECTION
  {
  }

  /** validateSelectedServices: what was switched on is in the template. */
  predicate Provided(s: Toggles, caddy: bool, template: map<Service, Template>) {
    && (forall k | 0 <= k < |SELECTION| && Wants(s, SELECTION[k]) && !IsHelper(SELECTION[k]) :: Available(template, SELECTION[k]))
    && (s.gateway ==> Available(template, ApiGateway) || Available(template, Envoy) || Available(template, Kong))
    && (caddy ==> Available(template, Caddy))
  }

  /** The gateway that serves: the first of the three the template has. */
  function Gateway(template: map<Service, Template>): Service {
    if Available(template, ApiGateway) then ApiGateway
    else if Available(template, Envoy) then Envoy
    else Kong
  }

  /** What is selected for a configuration. */
  predicate Selects(s: Toggles, caddy: bool, template: map<Service, Template>, name: Service) {
    || (Wants(s, name) && Available(template, name))
    || (s.gateway && name == Gateway(template) && Available(template, name))
    || (caddy && name == Caddy && Available(template, name))
  }

  /** selectServices, and the gateway that terminates TLS. */
  method SelectServices(s: Toggles, caddy: bool, template: map<Service, Template>) returns (selected: set<Service>)
    ensures forall name :: name in selected <==> Selects(s, caddy, template, name)
    ensures forall name | name in selected :: Available(template, name) && name in template && template[name] != Null
  {
    selected := {};
    for k := 0 to |SELECTION|
      invariant forall name :: name in selected <==> name in SELECTION[..k] && Wants(s, name) && Available(template, name)
    {
      var name := SELECTION[k];
      assert SELECTION[..k + 1] == SELECTION[..k] + [name];
      if Wants(s, name) && Available(template, name) {
        selected := selected + {name};
      }
    }
    assert SELECTION[..|SELECTION|] == SELECTION;
    forall name: Service | Wants(s, name) ensures name in SELECTION {
      SelectionIsComplete(s, name);
    }
    if s.gateway && Available(template, Gateway(template)) {
      selected := selected + {Gateway(template)};
    }
    if caddy && Available(template, Caddy) {
      selected := selected + {Caddy};
    }
  }

  /** Each service follows its own switch. */
  lemma SelectsIff(s: Toggles, caddy: bool, template: map<Service, Template>)
    ensures Selects(s, caddy, template, Db) <==> s.database && Available(template, Db)
    ensures Selects(s, caddy, template, Auth) <==> s.auth && Available(template, Auth)
    ensures Selects(s, caddy, template, Rest) <==> s.rest && Available(template, Rest)
    ensures Selects(s, caddy, template, Realtime) <==> s.realtime && Available(template, Realtime)
    ensures Selects(s, caddy, template, Storage) <==> s.storage && Available(template, Storage)
    ensures Selects(s, caddy, template, Imgproxy) <==> s.imgproxy && Available(template, Imgproxy)
    ensures Selects(s, caddy, template, Meta) <==> s.postgresMeta && Available(template, Meta)
    ensures Selects(s, caddy, template, Studio) <==> s.studio && Available(template, Studio)
    ensures Selects(s, caddy, template, Functions) <==> s.functions && Available(template, Functions)
    ensures Selects(s, caddy, template, Supavisor) <==> s.supavisor && Available(template, Supavisor)
    ensures Selects(s, caddy, template, Analytics) <==> s.logs && Available(template, Analytics)
    ensures Selects(s, caddy, template, Vector) <==> s.vector && Available(template, Vector)
  {
    hide Selects, Available;
    forall name: Service | !IsGateway(name)
      ensures Selects(s, caddy, template, name) <==> Wants(s, name) && Available(template, name)
    {
      SelectsPlain(s, caddy, template, name);
    }
  }

  lemma SelectsPlain(s: Toggles, caddy: bool, template: map<Service, Template>, name: Service)
    requires !IsGateway(name)
    ensures Selects(s, caddy, template, name) <==> Wants(s, name) && Available(template, name)
  {
  }

  /** Helpers follow the service they help, the first gateway of the template serves, and caddy terminates TLS. */
  lemma SelectsHelpersIff(s: Toggles, caddy: bool, template: map<Service, Template>)
    ensures Selects(s, caddy, template, Logflare) <==> s.logs && Available(template, Logflare)
    ensures Selects(s, caddy, template, DenoCache) <==> s.functions && Available(template, DenoCache)
    ensures Selects(s, caddy, template, DbConfig) <==> s.supavisor && Available(template, DbConfig)
    ensures Selects(s, caddy, template, ApiGateway) <==> s.gateway && Available(template, ApiGateway)
    ensures Selects(s, caddy, template, Envoy) <==> s.gateway && !Available(template, ApiGateway) && Available(template, Envoy)
    ensures Selects(s, caddy, template, Kong) <==>
      s.gateway && !Available(template, ApiGateway) && !Available(template, Envoy) && Available(template, Kong)
    ensures Selects(s, caddy, template, Caddy) <==> caddy && Available(template, Caddy)
    ensures !Selects(s, caddy, template, AuthTemplates) && forall other :: !Selects(s, caddy, template, Other(other))
  {
    hide Available;
  }

  // ---------------------------------------------------------------------------------------------
  // Dependencies
  // ---------------------------------------------------------------------------------------------

  /** The services a depends_on names. */
  function Names(d: Dependencies): set<Service> {
    match d
    case NoDependencies => {}
    case Mapped(names) => names
    case Listed(entries) => set e | e in entries && e.Named? :: e.service
    case Scalar(name) => {name}
  }

  /** pruneDependencies: exactly the selected names stay, and an empty depends_on goes; a single name is left alone. */
  method PruneDependencies(d: Dependencies, selected: set<Service>) returns (kept: Dependencies)
    ensures d.Scalar? ==> kept == d
    ensures !d.Scalar? ==> !kept.Scalar? && Names(kept) == Names(d) * selected
    ensures kept != NoDependencies ==> Names(kept) != {}
  {
    match d
    case NoDependencies => kept := d;
    case Scalar(_) => kept := d;
    case Mapped(names) =>
      kept := if names * selected == {} then NoDependencies else Mapped(names * selected);
    case Listed(entries) =>
      var list: seq<Dependency> := [];
      for k := 0 to |entries|
        invariant forall e | e in list :: e.Named? && e.service in selected && e in entries[..k]
        invariant forall e | e in entries[..k] && e.Named? && e.service in selected :: e in list
      {
        assert entries[..k + 1] == entries[..k] + [entries[k]];
        if entries[k].Named? && entries[k].service in selected {
          list := list + [entries[k]];
        }
      }
      assert entries[..|entries|] == entries;
      kept := if list == [] then NoDependencies else Listed(list);
      assert list != [] ==> list[0].service in Names(kept);
  }

  /** The template's dependencies, pruned to the selected services unless they are a single name. */
  ghost predicate FromTemplate(template: map<Service, Template>, selected: set<Service>, name: Service, d: Dependencies) {
    && name in template && template[name].Mapping?
    && (if template[name].dependsOn.Scalar? then d == template[name].dependsOn
        else !d.Scalar? && Names(d) == Names(template[name].dependsOn) * selected)
  }

  /** Every dependency is emitted. */
  ghost predicate Closed(services: map<Service, Dependencies>) {
    forall name | name in services :: Names(services[name]) <= services.Keys
  }

  /** Every dependency given as a single name is emitted. */
  ghost predicate SinglesEmitted(services: map<Service, Dependencies>) {
    forall name | name in services && services[name].Scalar? :: services[name].name in services
  }

  lemma ClosedIff(template: map<Service, Template>, selected: set<Service>, services: map<Service, Dependencies>)
    requires selected <= services.Keys
    requires forall name | name in services :: services[name] == NoDependencies || FromTemplate(template, selected, name, services[name])
    ensures Closed(services) <==> SinglesEmitted(services)
  {
  }

  /** The template has the service as a mapping with a pinned image. */
  predicate Pinned(template: map<Service, Template>, name: Service) {
    name in template && template[name].Mapping? && template[name].pinned
  }

  /** The filter loop of the renderer. */
  method FilterServices(selected: set<Service>, template: map<Service, Template>) returns (ok: bool, filtered: map<Service, Dependencies>)
    requires forall name | name in selected :: Available(template, name)
    ensures ok <==> forall name | name in selected :: Pinned(template, name)
    ensures ok ==> filtered.Keys == selected
    ensures ok ==> forall name | name in filtered :: FromTemplate(template, selected, name, filtered[name])
  {
    filtered := map[];
    var left := selected;
    while left != {}
      invariant left <= selected && filtered.Keys == selected - left
      invariant forall name | name in selected - left :: Pinned(template, name)
      invariant forall name | name in filtered :: FromTemplate(template, selected, name, filtered[name])
      decreases |left|
    {
      var name :| name in left;
      if !template[name].Mapping? || !template[name].pinned {
        return false, filtered;
      }
      var kept := PruneDependencies(template[name].dependsOn, selected);
      filtered := filtered[name := kept];
      left := left - {name};
    }
    ok := true;
  }

  method ListServices(services: map<Service, Dependencies>) returns (list: seq<Service>)
    ensures Distinct(list) && forall name :: name in list <==> name in services
  {
    list := [];
    var left := services.Keys;
    while left != {}
      invariant left <= services.Keys && Distinct(list)
      invariant forall name :: name in list <==> name in services && name !in left
      decreases |left|
    {
      var name :| name in left;
      list := list + [name];
      left := left - {name};
    }
  }

  /**
   * The service part of the renderer; `passes` says whether its other checks
   * accept.  It renders exactly the consistent configurations whose services
   * the template has, each as a mapping with a pinned image.
   */
  method RenderServices(s: Toggles, caddy: bool, template: map<Service, Template>, passes: bool) returns (r: Rendering)
    ensures r.Rendered? <==>
      && passes && Consistent(s, caddy) && Provided(s, caddy, template)
      && (exists name :: Selects(s, caddy, template, name))
      && (forall name | Selects(s, caddy, template, name) :: Pinned(template, name))
    ensures r.Rendered? ==> Distinct(r.enabled) && forall name :: name in r.enabled <==> name in r.services
    // Every capability follows its switch, and what it needs is there.
    ensures r.Rendered? ==> FollowsSwitches(s, caddy, template, r.services.Keys) && NeedsAreMet(r.services.Keys)
    // Dependency closed, exactly unless a service depends on a single name that is not emitted.
    ensures r.Rendered? ==> (Closed(r.services) <==> SinglesEmitted(r.services))
    // Accepted by the Manager.
    ensures r.Rendered? ==> SameServices(r.enabled, ManagerServices(s))
  {
    hide Closed, SinglesEmitted, FromTemplate, SameServices, Distinct, Provided, Consistent, Selects, Available, NeedsAreMet, FollowsSwitches;
    if !Consistent(s, caddy) || !Provided(s, caddy, template) {
      return Refused;
    }
    var selected := SelectServices(s, caddy, template);
    var ok, filtered := FilterServices(selected, template);
    if !ok || filtered == map[] || !passes {
      return Refused;
    }
    assert Auth in filtered <==> s.auth by {
      SelectsIff(s, caddy, template);
      ProvidedIsAvailable(s, caddy, template, Auth);
    }
    if Auth in filtered {
      filtered := filtered[AuthTemplates := NoDependencies];
    }
    ClosedIff(template, selected, filtered);
    EmitsIff(s, caddy, template, filtered.Keys);
    EmittedMeetsNeeds(s, caddy, template, filtered.Keys);
    var enabled := ListServices(filtered);
    ManagerAccepts(s, caddy, template, enabled);
    r := Rendered(filtered, enabled);
  }

  /** Each capability is emitted exactly when its switch is on, and each helper and gateway when it is also in the template. */
  ghost predicate FollowsSwitches(s: Toggles, caddy: bool, template: map<Service, Template>, emitted: set<Service>) {
    && (Db in emitted <==> s.database) && (Auth in emitted <==> s.auth) && (AuthTemplates in emitted <==> s.auth)
    && (Rest in emitted <==> s.rest) && (Realtime in emitted <==> s.realtime)
    && (Storage in emitted <==> s.storage) && (Imgproxy in emitted <==> s.imgproxy)
    && (Meta in emitted <==> s.postgresMeta) && (Studio in emitted <==> s.studio)
    && (Functions in emitted <==> s.functions) && (Supavisor in emitted <==> s.supavisor)
    && (Analytics in emitted <==> s.logs) && (Vector in emitted <==> s.vector)
    && (Logflare in emitted <==> s.logs && Available(template, Logflare))
    && (DenoCache in emitted <==> s.functions && Available(template, DenoCache))
    && (DbConfig in emitted <==> s.supavisor && Available(template, DbConfig))
    && (ApiGateway in emitted <==> s.gateway && Available(template, ApiGateway))
    && (Envoy in emitted <==> s.gateway && !Available(template, ApiGateway) && Available(template, Envoy))
    && (Kong in emitted <==> s.gateway && !Available(template, ApiGateway) && !Available(template, Envoy))
    && (Caddy in emitted <==> caddy) && (forall other :: Other(other) !in emitted)
  }

  /** What some services cannot do without. */
  ghost predicate NeedsAreMet(emitted: set<Service>) {
    && (Storage in emitted ==> Db in emitted && Rest in emitted)
    && (Realtime in emitted || Supavisor in emitted || Analytics in emitted ==> Db in emitted)
    && (Analytics in emitted <==> Vector in emitted)
    && (Studio in emitted ==> Meta in emitted)
    && (Imgproxy in emitted ==> Storage in emitted)
    && (|| Auth in emitted || Rest in emitted || Realtime in emitted || Storage in emitted || Functions in emitted
        || Studio in emitted || Caddy in emitted
        ==> ApiGateway in emitted || Envoy in emitted || Kong in emitted)
  }

  /** For a configuration that is consistent and provided for, availability follows from the switch. */
  lemma EmitsIff(s: Toggles, caddy: bool, template: map<Service, Template>, emitted: set<Service>)
    requires Consistent(s, caddy) && Provided(s, caddy, template)
    requires forall name :: name in emitted <==> Selects(s, caddy, template, name) || (s.auth && name == AuthTemplates)
    ensures FollowsSwitches(s, caddy, template, emitted)
  {
    hide Selects, Available;
    SelectsIff(s, caddy, template);
    SelectsHelpersIff(s, caddy, template);
    forall name: Service ensures Wants(s, name) && !IsHelper(name) ==> Available(template, name) {
      ProvidedIsAvailable(s, caddy, template, name);
    }
  }

  lemma EmittedMeetsNeeds(s: Toggles, caddy: bool, template: map<Service, Template>, emitted: set<Service>)
    requires Consistent(s, caddy) && Provided(s, caddy, template)
    requires forall name :: name in emitted <==> Selects(s, caddy, template, name) || (s.auth && name == AuthTemplates)
    ensures NeedsAreMet(emitted)
  {
    hide Selects, Available;
    EmitsIff(s, caddy, template, emitted);
  }

  lemma ProvidedIsAvailable(s: Toggles, caddy: bool, template: map<Service, Template>, name: Service)
    requires Provided(s, caddy, template)
    ensures Wants(s, name) && !IsHelper(name) ==> Available(template, name)
  {
    if Wants(s, name) {
      SelectionIsComplete(s, name);
    }
  }

  // ---------------------------------------------------------------------------------------------
  // The Manager's check
  // ---------------------------------------------------------------------------------------------

  /** The services the Manager expects for a configuration. */
  function ManagerServices(s: Toggles): seq<Service> {
    Chosen(ManagerSwitches(s))
  }

  function ManagerSwitches(s: Toggles): seq<(Service, bool)> {
    [ (Db, s.database), (ApiGateway, s.gateway), (Auth, s.auth), (Rest, s.rest), (Meta, s.postgresMeta),
      (Studio, s.studio), (Realtime, s.realtime), (Storage, s.storage), (Imgproxy, s.imgproxy),
      (Functions, s.functions), (Supavisor, s.supavisor), (Analytics, s.logs), (Vector, s.vector)]
  }

  /** The Manager expects a service exactly when its switch is on. */
  lemma ManagerServicesIff(s: Toggles)
    ensures var list := ManagerServices(s);
      && (Db in list <==> s.database) && (ApiGateway in list <==> s.gateway) && (Auth in list <==> s.auth)
      && (Rest in list <==> s.rest) && (Meta in list <==> s.postgresMeta) && (Studio in list <==> s.studio)
      && (Realtime in list <==> s.realtime) && (Storage in list <==> s.storage) && (Imgproxy in list <==> s.imgproxy)
      && (Functions in list <==> s.functions) && (Supavisor in list <==> s.supavisor)
      && (Analytics in list <==> s.logs) && (Vector in list <==> s.vector)
    ensures Distinct(ManagerServices(s))
  {
    ManagerSwitchesOnce(s);
    ChosenDistinct(ManagerSwitches(s));
    hide Chosen, EachOnce, Distinct;
    var switches := ManagerSwitches(s);
    ChosenAt(switches, 0);
    ChosenAt(switches, 1);
    ChosenAt(switches, 2);
    ChosenAt(switches, 3);
    ChosenAt(switches, 4);
    ChosenAt(switches, 5);
    ChosenAt(switches, 6);
    ChosenAt(switches, 7);
    ChosenAt(switches, 8);
    ChosenAt(switches, 9);
    ChosenAt(switches, 10);
    ChosenAt(switches, 11);
    ChosenAt(switches, 12);
  }

  lemma ManagerExpectsNoOther(s: Toggles, name: Service)
    requires name in ManagerServices(s)
    ensures Expectable(name)
  {
    var switches := ManagerSwitches(s);
    ChosenIff(switches);
    ExpectableFirst(s);
    ExpectableLast(s);
    hide Chosen, Expectable;
    var i :| 0 <= i < |switches| && switches[i] == (name, true);
    assert Expectable(switches[i].0);
  }

  lemma ExpectableFirst(s: Toggles)
    ensures forall i | 0 <= i < 7 :: Expectable(ManagerSwitches(s)[i].0)
  {
  }

  lemma ExpectableLast(s: Toggles)
    ensures forall i | 7 <= i < 13 :: Expectable(ManagerSwitches(s)[i].0)
  {
  }

  predicate Expectable(name: Service) {
    !IsHelper(name) && (IsGateway(name) ==> name == ApiGateway) && !name.Other?
  }

  /** The renderer's switches and the Manager's are the same. */
  lemma ManagerWants(s: Toggles, name: Service)
    ensures name in ManagerServices(s) <==> (Wants(s, name) && !IsHelper(name)) || (s.gateway && name == ApiGateway)
  {
    ManagerServicesIff(s);
    hide ManagerServices;
    if name in ManagerServices(s) {
      ManagerExpectsNoOther(s, name);
    }
  }

  function Capabilities(values: seq<Service>): set<Service> {
    set name | name in values && !IsHelper(name) && !IsGateway(name)
  }

  predicate HasGateway(values: seq<Service>) {
    exists i :: 0 <= i < |values| && IsGateway(values[i])
  }

  /** Helpers are dropped, and all gateways count as one. */
  function Canonical(values: seq<Service>): seq<Service> {
    Kept(values, Capabilities(values)) + if HasGateway(values) then [ApiGateway] else []
  }

  method CanonicalServices(values: seq<Service>) returns (result: seq<Service>)
    ensures result == Canonical(values)
  {
    result := [];
    var gateway := false;
    for k := 0 to |values|
      invariant result == Kept(values[..k], Capabilities(values))
      invariant gateway <==> exists i :: 0 <= i < k && IsGateway(values[i])
    {
      assert values[..k + 1][..k] == values[..k];
      if IsHelper(values[k]) {
        continue;
      }
      if IsGateway(values[k]) {
        gateway := true;
      } else {
        result := result + [values[k]];
      }
    }
    assert values[..|values|] == values;
    if gateway {
      result := result + [ApiGateway];
    }
  }

  /** sameServices: equal once sorted, that is, equal as multisets. */
  predicate SameServices(left: seq<Service>, right: seq<Service>) {
    multiset(Canonical(left)) == multiset(Canonical(right))
  }

  /** For lists without duplicates the check compares capabilities and the presence of a gateway. */
  lemma SameServicesIff(left: seq<Service>, right: seq<Service>)
    requires Distinct(left) && Distinct(right)
    ensures SameServices(left, right) <==> Capabilities(left) == Capabilities(right) && HasGateway(left) == HasGateway(right)
  {
    if SameServices(left, right) {
      forall x: Service ensures x in Capabilities(left) <==> x in Capabilities(right) {
        CanonicalCount(left, x);
        CanonicalCount(right, x);
      }
      CanonicalCount(left, ApiGateway);
      CanonicalCount(right, ApiGateway);
    } else if Capabilities(left) == Capabilities(right) && HasGateway(left) == HasGateway(right) {
      forall x: Service ensures multiset(Canonical(left))[x] == multiset(Canonical(right))[x] {
        CanonicalCount(left, x);
        CanonicalCount(right, x);
      }
    }
  }

  lemma CanonicalCount(values: seq<Service>, x: Service)
    requires Distinct(values)
    ensures multiset(Canonical(values))[x] ==
      if x == ApiGateway then (if HasGateway(values) then 1 else 0) else if x in Capabilities(values) then 1 else 0
  {
    KeptOnce(values, Capabilities(values), x);
  }

  /** A list names the capabilities switched on, and a gateway when there is to be one. */
  ghost predicate Reflects(s: Toggles, values: seq<Service>) {
    && (forall name :: name in Capabilities(values) <==> Wants(s, name) && !IsHelper(name))
    && (HasGateway(values) <==> s.gateway)
  }

  lemma WantedIsNoGateway(s: Toggles, name: Service)
    requires Wants(s, name)
    ensures !IsGateway(name)
  {
  }

  lemma EmittedReflects(s: Toggles, caddy: bool, template: map<Service, Template>, enabled: seq<Service>)
    requires Consistent(s, caddy) && Provided(s, caddy, template)
    requires forall name :: name in enabled <==> Selects(s, caddy, template, name) || (s.auth && name == AuthTemplates)
    ensures Reflects(s, enabled)
  {
    forall name: Service ensures name in Capabilities(enabled) <==> Wants(s, name) && !IsHelper(name) {
      EmittedCapability(s, caddy, template, enabled, name);
    }
    EmittedGateway(s, caddy, template, enabled);
  }

  lemma EmittedCapability(s: Toggles, caddy: bool, template: map<Service, Template>, enabled: seq<Service>, name: Service)
    requires Provided(s, caddy, template)
    requires name in enabled <==> Selects(s, caddy, template, name) || (s.auth && name == AuthTemplates)
    ensures name in Capabilities(enabled) <==> Wants(s, name) && !IsHelper(name)
  {
    hide Wants, Provided;
    if Wants(s, name) {
      WantedIsNoGateway(s, name);
      ProvidedIsAvailable(s, caddy, template, name);
    }
  }

  lemma EmittedGateway(s: Toggles, caddy: bool, template: map<Service, Template>, enabled: seq<Service>)
    requires Consistent(s, caddy) && Provided(s, caddy, template)
    requires forall name :: name in enabled <==> Selects(s, caddy, template, name) || (s.auth && name == AuthTemplates)
    ensures HasGateway(enabled) <==> s.gateway
  {
    hide Wants;
    if s.gateway {
      var g := Gateway(template);
      assert g in enabled && IsGateway(g);
    } else if HasGateway(enabled) {
      var i :| 0 <= i < |enabled| && IsGateway(enabled[i]);
      assert enabled[i] in enabled;
      if Wants(s, enabled[i]) {
        WantedIsNoGateway(s, enabled[i]);
      }
      assert false;
    }
  }

  lemma ExpectedReflects(s: Toggles)
    ensures Reflects(s, ManagerServices(s)) && Distinct(ManagerServices(s))
  {
    ManagerServicesIff(s);
    hide ManagerServices, Wants, Distinct, HasGateway, IsHelper, IsGateway;
    forall name: Service ensures name in Capabilities(ManagerServices(s)) <==> Wants(s, name) && !IsHelper(name) {
      ExpectedCapability(s, name);
    }
    ExpectedGateway(s);
  }

  lemma ExpectedCapability(s: Toggles, name: Service)
    ensures name in Capabilities(ManagerServices(s)) <==> Wants(s, name) && !IsHelper(name)
  {
    hide ManagerServices, Wants;
    ManagerWants(s, name);
    if Wants(s, name) {
      WantedIsNoGateway(s, name);
    }
  }

  lemma ExpectedGateway(s: Toggles)
    ensures HasGateway(ManagerServices(s)) <==> s.gateway
  {
    ManagerServicesIff(s);
    hide ManagerServices;
    var expected := ManagerServices(s);
    if s.gateway {
      var i :| 0 <= i < |expected| && expected[i] == ApiGateway;
      assert IsGateway(expected[i]);
    } else if HasGateway(expected) {
      var i :| 0 <= i < |expected| && IsGateway(expected[i]);
      ManagerExpectsNoOther(s, expected[i]);
      assert false;
    }
  }

  lemma ManagerSwitchesOnce(s: Toggles)
    ensures EachOnce(ManagerSwitches(s))
  {
  }

  lemma ManagerAccepts(s: Toggles, caddy: bool, template: map<Service, Template>, enabled: seq<Service>)
    requires Consistent(s, caddy) && Provided(s, caddy, template) && Distinct(enabled)
    requires forall name :: name in enabled <==> Selects(s, caddy, template, name) || (s.auth && name == AuthTemplates)
    ensures SameServices(enabled, ManagerServices(s))
  {
    hide Wants, Selects, Consistent, Provided, ManagerServices, SameServices, Capabilities, HasGateway, IsHelper;
    EmittedReflects(s, caddy, template, enabled);
    ExpectedReflects(s);
    assert Capabilities(enabled) == Capabilities(ManagerServices(s));
    SameServicesIff(enabled, ManagerServices(s));
  }

  // ---------------------------------------------------------------------------------------------
  // Restarting the gateway
  // ---------------------------------------------------------------------------------------------

  /**
   * A changed address or gateway setting recreates the emitted gateway exactly
   * when the template calls it api-gw: the restart list knows no other name.
   */
  lemma GatewayRestartsIff(template: map<Service, Template>, a: Configuration, b: Configuration)
    ensures Gateway(template) in Affected(a, b) <==>
      && Available(template, ApiGateway)
      && (|| a.siteURL != b.siteURL || a.domain != b.domain || a.gateway != b.gateway || a.httpsMode != b.httpsMode
          || a.internalGatewayPort != b.internalGatewayPort || a.apiPort != b.apiPort || a.services.gateway != b.services.gateway)
    ensures Caddy !in Affected(a, b)
  {
    hide Affected;
    AffectedIff(a, b);
    AffectedMeansMarked(a, b, Gateway(template));
    AffectedMeansMarked(a, b, Caddy);
  }

  /** With a template whose only gateway is kong, a new API port recreates no gateway. */
  lemma KongKeepsOldPort(template: map<Service, Template>, a: Configuration, port: nat)
    requires !Available(template, ApiGateway) && !Available(template, Envoy) && port != a.apiPort
    ensures Gateway(template) == Kong && ApiGateway in Affected(a, a.(apiPort := port))
    ensures Kong !in Affected(a, a.(apiPort := port))
  {
    hide Affected;
    AffectedIff(a, a.(apiPort := port));
    GatewayRestartsIff(template, a, a.(apiPort := port));
  }
}
