/**
 * The project configuration as the Manager store sees it: the globally unique resources it claims,
 * the ports it projects into `port_allocations`, and the secret inputs that persistence strips.
 */
module Configuration {

  datatype SecretInput = SecretInput(action: string, value: string)

  const NO_SECRET := SecretInput("", "")

  datatype OAuthProvider = OAuthProvider(enabled: bool, clientId: string, secret: SecretInput)

  datatype FunctionVariable = FunctionVariable(name: string, value: SecretInput)

  datatype Services = Services(studio: bool, directDb: bool, supavisor: bool, others: set<string>)

  datatype Ports = Ports(
    api: nat, studio: nat, directDatabase: nat, pooler: nat, poolerTransaction: nat, poolerSession: nat)

  datatype Config = Config(
    revision: int,
    domain: string,
    services: Services,
    ports: Ports,
    studioPassword: SecretInput,
    smtpPassword: SecretInput,
    phoneSecret: SecretInput,
    oauth: map<string, OAuthProvider>,
    storageSecret: SecretInput,
    variables: seq<FunctionVariable>,
    settings: string)

  /** Clears the secret inputs of mail, phone, providers, storage and functions, but not the Studio password. */
  function Redact(c: Config): (r: Config)
    ensures Redacted(r) && r.studioPassword == c.studioPassword
    ensures r.revision == c.revision && r.domain == c.domain && r.services == c.services && r.ports == c.ports && r.settings == c.settings
    // Providers and variables stay, with everything but their secrets.
    ensures r.oauth.Keys == c.oauth.Keys
    ensures forall name | name in c.oauth :: r.oauth[name].enabled == c.oauth[name].enabled && r.oauth[name].clientId == c.oauth[name].clientId
    ensures |r.variables| == |c.variables| && forall i | 0 <= i < |c.variables| :: r.variables[i].name == c.variables[i].name
  {
    c.(smtpPassword := NO_SECRET,
       phoneSecret := NO_SECRET,
       oauth := map provider | provider in c.oauth :: c.oauth[provider].(secret := NO_SECRET),
       storageSecret := NO_SECRET,
       variables := seq(|c.variables|, i requires 0 <= i < |c.variables| => c.variables[i].(value := NO_SECRET)))
  }

  predicate Redacted(c: Config) {
    && c.smtpPassword == NO_SECRET
    && c.phoneSecret == NO_SECRET
    && c.storageSecret == NO_SECRET
    && (forall provider | provider in c.oauth :: c.oauth[provider].secret == NO_SECRET)
    && (forall i | 0 <= i < |c.variables| :: c.variables[i].value == NO_SECRET)
  }

  /** No secret input at all. */
  predicate SecretFree(c: Config) {
    Redacted(c) && c.studioPassword == NO_SECRET
  }

  /** What is persisted of a configuration carries no secret input exactly when its Studio password was empty. */
  lemma RedactedIsSecretFreeIff(c: Config)
    ensures SecretFree(Redact(c)) <==> c.studioPassword == NO_SECRET
  {
  }

  /** A Studio password that reaches the store in the clear is persisted in the clear. */
  lemma StudioPasswordSurvives(c: Config, value: string)
    ensures Redact(c.(studioPassword := SecretInput("replace", value))).studioPassword.value == value
  {
  }

  lemma RedactedIgnoresRevision(c: Config, revision: int)
    ensures Redacted(c) ==> Redacted(c.(revision := revision))
  {
  }

  /** Redaction is a projection: what was stored once is stored unchanged by every later publication. */
  lemma RedactIsIdempotent(c: Config)
    ensures Redacted(c) <==> Redact(c) == c
  {
  }

  datatype PortKind = API | STUDIO | DATABASE | POOLER | POOLER_TRANSACTION | POOLER_SESSION

  datatype PortEntry = PortEntry(kind: PortKind, port: nat, enabled: bool) {
    predicate Claims() {
      enabled && port != 0
    }
  }

  /** The six server-owned ports in the order in which a publication writes them. */
  function PortEntries(c: Config): (entries: seq<PortEntry>)
    ensures forall i, j | 0 <= i < j < |entries| :: entries[i].kind != entries[j].kind
  {
    [ PortEntry(API, c.ports.api, true),
      PortEntry(STUDIO, c.ports.studio, c.services.studio),
      PortEntry(DATABASE, c.ports.directDatabase, c.services.directDb),
      PortEntry(POOLER, c.ports.pooler, c.services.supavisor),
      PortEntry(POOLER_TRANSACTION, c.ports.poolerTransaction, c.services.supavisor),
      PortEntry(POOLER_SESSION, c.ports.poolerSession, c.services.supavisor)]
  }

  datatype Resource = Domain(name: string) | Port(port: nat)

  /** The resources that must be globally unique: a disabled service owner claims no port. */
  function Resources(c: Config): (resources: set<Resource>)
    ensures forall e | e in PortEntries(c) && e.Claims() :: Port(e.port) in resources
    ensures forall port | Port(port) in resources :: exists e :: e in PortEntries(c) && e.Claims() && e.port == port
    ensures forall name :: Domain(name) in resources <==> name != "" && name == c.domain
  {
    (if c.domain != "" then {Domain(c.domain)} else {})
    + (set e | e in PortEntries(c) && e.Claims() :: Port(e.port))
  }

  /** The ports a configuration claims: its own API port, and those of the services that are on; 0 means none. */
  lemma ClaimedPortsIff(c: Config, port: nat)
    ensures Port(port) in Resources(c) <==>
      && port != 0
      && (|| port == c.ports.api
          || (c.services.studio && port == c.ports.studio)
          || (c.services.directDb && port == c.ports.directDatabase)
          || (c.services.supavisor && port in {c.ports.pooler, c.ports.poolerTransaction, c.ports.poolerSession}))
  {
    var entries := PortEntries(c);
    assert entries[0] in entries && entries[1] in entries && entries[2] in entries;
    assert entries[3] in entries && entries[4] in entries && entries[5] in entries;
  }

  /** What a configuration claims does not depend on its secrets or its revision number. */
  lemma ClaimsIgnoreSecrets(c: Config, stored: Config)
    requires stored.domain == c.domain && stored.services == c.services && stored.ports == c.ports
    ensures PortEntries(stored) == PortEntries(c) && Resources(stored) == Resources(c)
  {
  }
}
