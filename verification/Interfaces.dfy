/** The canonical form of single endpoints, access types and ports. */
module Interfaces {
  import opened JsonValues
  import opened Wrappers
  import opened Texts

  /** Any rejection of the interface contract, and any crash on an unhashable value. */
  datatype InterfaceError = InterfaceError

  /** What `urlsplit` reads from a URL; `port` is an error when the port is not a number in range. */
  datatype Url = Url(scheme: string, hostname: string, port: Result<Option<int>, InterfaceError>, path: string)

  /** Case folding, URL splitting and `str()` of the runtime. */
  datatype Runtime = Runtime(lower: string -> string, casefold: string -> string,
                             split: string -> Result<Url, InterfaceError>, show: Json -> string)
  {
    /** Both foldings lower-case ASCII text letter by letter. */
    ghost predicate Lawful() {
      forall s | IsAscii(s) :: lower(s) == AsciiLower(s) && casefold(s) == AsciiLower(s)
    }
  }

  /** `document.get(key)`: an absent key reads like null. */
  function Get(field: Option<Json>): Json {
    if field.Some? then field.value else JNull
  }

  datatype Endpoint = Endpoint(id: Option<Json>, kind: Option<Json>, url: Option<Json>, host: Option<Json>,
                               protocol: Option<Json>, transport: Option<Json>, port: Option<Json>, path: Option<Json>,
                               exposure: Option<Json>, caption: Option<Json>, name: Option<Json>, healthUrl: Option<Json>,
                               rest: map<string, Json>)

  // Vocabularies.

  const ENDPOINT_TYPES: set<string> :=
    {"Web", "REST API", "MCP", "HEC", "SSH", "SMB", "Database", "S2S", "Metrics", "Webhook", "HTTP", "TCP", "UDP"}

  const ACCESS_TYPES: set<string> :=
    {"ssh", "admin_web", "admin_api", "database", "smb", "sudo", "token", "other"}

  const EXPOSURES: set<string> := {"loopback", "lan", "vpn", "internal", "public", "unknown"}

  function TypeAlias(folded: string): Option<string> {
    if folded == "web" then Some("Web")
    else if folded == "rest api" || folded == "rest_api" || folded == "api" then Some("REST API")
    else if folded == "mcp" then Some("MCP")
    else if folded == "hec" then Some("HEC")
    else if folded == "ssh" then Some("SSH")
    else if folded == "smb" then Some("SMB")
    else if folded == "database" || folded == "db" then Some("Database")
    else if folded == "s2s" || folded == "splunk s2s" then Some("S2S")
    else if folded == "metrics" then Some("Metrics")
    else if folded == "webhook" then Some("Webhook")
    else if folded == "http" || folded == "https" then Some("HTTP")
    else if folded == "tcp" then Some("TCP")
    else if folded == "udp" then Some("UDP")
    else None
  }

  function TypeProtocol(kind: string): Option<string> {
    if kind in {"Web", "REST API", "HEC", "Metrics", "Webhook", "HTTP"} then Some("http")
    else if kind == "MCP" then Some("mcp")
    else if kind == "SSH" then Some("ssh")
    else if kind == "SMB" then Some("smb")
    else if kind == "Database" then Some("database")
    else if kind == "S2S" then Some("splunk-s2s")
    else if kind == "TCP" then Some("tcp")
    else if kind == "UDP" then Some("udp")
    else None
  }

  function DefaultPort(protocol: string): Option<int> {
    if protocol == "http" then Some(80)
    else if protocol == "https" then Some(443)
    else if protocol == "ssh" then Some(22)
    else if protocol == "smb" then Some(445)
    else None
  }

  /** `^x-[a-z0-9][a-z0-9-]*$`. */
  predicate IsCustomType(s: string) {
    |s| >= 3 && s[0] == 'x' && s[1] == '-' && IsIdentifierHead(s[2])
    && forall i | 3 <= i < |s| :: IsIdentifierHead(s[i]) || s[i] == '-'
  }

  /** `^[a-z][a-z0-9+.-]*$`. */
  predicate IsProtocol(s: string) {
    s != [] && 'a' <= s[0] <= 'z'
    && forall c | c in s :: IsIdentifierHead(c) || c == '+' || c == '.' || c == '-'
  }

  // Field checks.

  /** `_require_nonempty_string`. */
  function RequireText(value: Json): Result<string, InterfaceError> {
    if value.JText? && !IsBlank(value.text) then Ok(value.text) else Err(InterfaceError)
  }

  function RequireIdentifier(value: Json): (r: Result<string, InterfaceError>)
    ensures r.Ok? ==> value == JText(r.value) && IsIdentifier(r.value)
  {
    var text :- RequireText(value);
    if IsIdentifier(text) then Ok(text) else Err(InterfaceError)
  }

  /** `isinstance(value, int)` also admits booleans, which are excluded again. */
  function RequirePort(value: Json): (r: Result<int, InterfaceError>)
    ensures r.Ok? ==> value == JInt(r.value)
  {
    if value.JInt? && 1 <= value.number <= 65535 then Ok(value.number) else Err(InterfaceError)
  }

  function RequireMember(value: Json, allowed: set<string>): (r: Result<string, InterfaceError>)
    ensures r.Ok? ==> value == JText(r.value) && r.value in allowed
  {
    if value.JText? && value.text in allowed then Ok(value.text) else Err(InterfaceError)
  }

  /** `_normalize_endpoint_type`. */
  function NormalizeType(value: Json, protocol: Option<string>, rt: Runtime): Result<string, InterfaceError> {
    if value == JNull then
      var alias := TypeAlias(rt.casefold(if protocol.Some? then protocol.value else ""));
      Ok(if alias.Some? then alias.value else "TCP")
    else
      var raw :- RequireText(value);
      var text := Strip(raw);
      var alias := TypeAlias(rt.casefold(text));
      if alias.Some? then Ok(alias.value)
      else if text in ENDPOINT_TYPES || IsCustomType(text) then Ok(text)
      else Err(InterfaceError)
  }

  function AccessAlias(text: string): string {
    if text == "web" then "admin_web" else if text == "api" then "admin_api" else text
  }

  /** `_normalize_access_type`. */
  function NormalizeAccessType(value: Json, rt: Runtime): Result<string, InterfaceError> {
    if value == JNull then Ok("other")
    else
      var raw :- RequireText(value);
      var text := AccessAlias(rt.lower(Strip(raw)));
      if text in ACCESS_TYPES then Ok(text) else Err(InterfaceError)
  }

  /** `_parse_url`: only texts with a scheme separator are split. */
  function ParseUrl(url: Option<string>, rt: Runtime): Result<Option<Url>, InterfaceError> {
    if url.None? || url.value == "" || !Contains(url.value, "://") then Ok(None)
    else
      var parsed :- rt.split(url.value);
      Ok(Some(parsed))
  }

  function OptionalText(value: Json): Result<Option<string>, InterfaceError> {
    if value == JNull then Ok(None)
    else
      var text :- RequireText(value);
      Ok(Some(Strip(text)))
  }

  function UrlProtocol(parsed: Option<Url>, rt: Runtime): Option<string> {
    if parsed.Some? && parsed.value.scheme != "" then Some(rt.lower(parsed.value.scheme)) else None
  }

  function HostOf(host: Option<string>, url: Option<string>, parsed: Option<Url>): Option<string> {
    if host.Some? then host
    else if parsed.Some? && parsed.value.hostname != "" then Some(parsed.value.hostname)
    else if url.Some? && url.value != "" && parsed.None? && '/' !in url.value then url
    else None
  }

  predicate IsTransport(value: Json) {
    value == JText("tcp") || value == JText("udp")
  }

  /** The explicit transport, else a protocol that names one, else a default. */
  function TransportOf(transport: Json, protocol: Json, urlProtocol: Option<string>, kind: string): Result<string, InterfaceError> {
    if transport == JNull && (protocol.JList? || protocol.JObject?) then Err(InterfaceError)
    else
      var explicit := if transport == JNull && IsTransport(protocol) then protocol else transport;
      if explicit == JNull then Ok(if urlProtocol == Some("udp") || kind == "UDP" then "udp" else "tcp")
      else RequireMember(explicit, {"tcp", "udp"})
  }

  /** The URL scheme, else an explicit protocol that is not a transport, else the type's default. */
  function ProtocolOf(protocol: Json, urlProtocol: Option<string>, kind: string, rt: Runtime): Result<string, InterfaceError> {
    var stated :=
      if urlProtocol.Some? then urlProtocol
      else if protocol.JText? && !IsTransport(protocol) then Some(rt.lower(protocol.text))
      else None;
    var chosen := if stated.Some? && stated.value != "" then stated else TypeProtocol(kind);
    if chosen.None? || !IsProtocol(chosen.value) then Err(InterfaceError) else Ok(chosen.value)
  }

  function PortOf(port: Json, parsed: Option<Url>, protocol: string): (r: Result<Option<int>, InterfaceError>)
    ensures r.Ok? && port != JNull ==> r.value.Some? && port == JInt(r.value.value)
    ensures r.Ok? && r.value.Some? ==> 1 <= r.value.value <= 65535
  {
    if port != JNull then
      var n :- RequirePort(port);
      Ok(Some(n))
    else
      var inUrl :- (if parsed.Some? then parsed.value.port else Ok(None));
      var found := if inUrl.Some? then inUrl else DefaultPort(protocol);
      if found.None? then Ok(None)
      else
        var n :- RequirePort(JInt(found.value));
        Ok(Some(n))
  }

  predicate UrlHasPath(parsed: Option<Url>) {
    parsed.Some? && parsed.value.path != "" && parsed.value.path != "/"
  }

  function PathOf(path: Json, parsed: Option<Url>): Result<Option<string>, InterfaceError> {
    var stated := if path == JNull && UrlHasPath(parsed) then JText(parsed.value.path) else path;
    if stated == JNull || stated == JText("") then Ok(None)
    else
      var text :- RequireText(stated);
      Ok(Some(text))
  }

  function ExposureOf(exposure: Option<Json>): (r: Result<string, InterfaceError>)
    ensures r.Ok? ==> r.value in EXPOSURES
  {
    RequireMember(if exposure.None? then JText("unknown") else exposure.value, EXPOSURES)
  }

  function JoinParts(parts: seq<string>): string {
    if parts == [] then ""
    else if parts[0] == "" then JoinParts(parts[1..])
    else
      var more := JoinParts(parts[1..]);
      if more == "" then parts[0] else parts[0] + "-" + more
  }

  lemma FallbacksAreIdentifiers()
    ensures IsIdentifier("endpoint") && IsIdentifier("access")
  {
  }

  function IdOf(id: Json, kind: string, port: Option<int>, host: Option<string>, used: set<string>, rt: Runtime)
    : (r: Result<string, InterfaceError>)
    ensures r.Ok? ==> r.value !in used && IsIdentifier(r.value)
  {
    hide IsIdentifier, Slug, Decimal, JoinParts, UniqueIdentifier;
    FallbacksAreIdentifiers();
    if id == JNull then
      var parts := [Slug(kind, rt.lower),
                    if port.Some? && port.value >= 0 then Decimal(port.value) else "",
                    if host.Some? then Slug(host.value, rt.lower) else ""];
      Ok(UniqueIdentifier(JoinParts(parts), used, "endpoint", rt.lower))
    else
      var text :- RequireIdentifier(id);
      if text in used then Err(InterfaceError) else Ok(text)
  }

  function TextField(text: Option<string>, otherwise: Option<Json>): Option<Json> {
    if text.Some? then Some(JText(text.value)) else otherwise
  }

  /** What the checks of `normalize_endpoint` find out before the id is chosen. */
  datatype Facts = Facts(url: Option<string>, host: Option<string>, kind: string, protocol: string, transport: string,
                         port: Option<int>, path: Option<string>, exposure: string)

  function FactsOf(raw: Endpoint, rt: Runtime): Result<Facts, InterfaceError> {
    var url :- OptionalText(Get(raw.url));
    var ownHost :- OptionalText(Get(raw.host));
    var parsed :- ParseUrl(url, rt);
    var host := HostOf(ownHost, url, parsed);
    if host.None? && url.None? then Err(InterfaceError)
    else
      var protocol := Get(raw.protocol);
      var urlProtocol := UrlProtocol(parsed, rt);
      var hint := if urlProtocol.Some? then urlProtocol else if protocol.JText? then Some(protocol.text) else None;
      var kind :- NormalizeType(Get(raw.kind), hint, rt);
      var transport :- TransportOf(Get(raw.transport), protocol, urlProtocol, kind);
      var chosen :- ProtocolOf(protocol, urlProtocol, kind, rt);
      var port :- PortOf(Get(raw.port), parsed, chosen);
      var path :- PathOf(Get(raw.path), parsed);
      var exposure :- ExposureOf(raw.exposure);
      Ok(Facts(url, host, kind, chosen, transport, port, path, exposure))
  }

  /** The normalized document of an endpoint. */
  function Write(raw: Endpoint, f: Facts, id: string): Endpoint {
    Endpoint(Some(JText(id)), Some(JText(f.kind)), TextField(f.url, raw.url), TextField(f.host, raw.host),
             Some(JText(f.protocol)), Some(JText(f.transport)),
             if f.port.Some? then Some(JInt(f.port.value)) else raw.port,
             TextField(f.path, None), Some(JText(f.exposure)),
             if raw.name.Some? && raw.caption.None? then raw.name else raw.caption, raw.name, raw.healthUrl, raw.rest)
  }

  /** `normalize_endpoint`. */
  function NormalizeEndpoint(raw: Endpoint, used: set<string>, rt: Runtime): Result<Endpoint, InterfaceError> {
    var facts :- FactsOf(raw, rt);
    var id :- IdOf(Get(raw.id), facts.kind, facts.port, facts.host, used, rt);
    if raw.healthUrl.Some? && RequireText(raw.healthUrl.value).Err? then Err(InterfaceError)
    else Ok(Write(raw, facts, id))
  }

  // The canonical form is stable, with three exceptions.

  /** An explicit empty path next to a URL that has a path: the empty path is dropped, and the next
      pass takes the path from the URL. */
  predicate EmptyPathHazard(raw: Endpoint, parsed: Option<Url>) {
    raw.path == Some(JText("")) && UrlHasPath(parsed)
  }

  /** An explicit protocol that spells a transport in other letters, where the type has a different
      default: the lower-cased protocol is taken for a transport by the next pass. */
  predicate ProtocolHazard(raw: Endpoint, parsed: Option<Url>, kind: string, rt: Runtime) {
    && UrlProtocol(parsed, rt).None?
    && raw.protocol.Some? && raw.protocol.value.JText? && !IsTransport(raw.protocol.value)
    && IsTransport(JText(rt.lower(raw.protocol.value.text)))
    && TypeProtocol(kind) != Some(rt.lower(raw.protocol.value.text))
  }

  /** A host name taken from the URL that carries outer white space: the next pass trims it. */
  predicate HostHazard(raw: Endpoint, parsed: Option<Url>) {
    Get(raw.host) == JNull && parsed.Some? && parsed.value.hostname != "" && Strip(parsed.value.hostname) != parsed.value.hostname
  }

  predicate Hazard(raw: Endpoint, f: Facts, rt: Runtime) {
    var parsed := ParseUrl(f.url, rt);
    parsed.Ok? && (EmptyPathHazard(raw, parsed.value) || ProtocolHazard(raw, parsed.value, f.kind, rt) || HostHazard(raw, parsed.value))
  }

  /** A normalized endpoint that a second normalization leaves as it is. */
  predicate IsFixed(e: Endpoint, rt: Runtime) {
    NormalizeEndpoint(e, {}, rt) == Ok(e)
  }
}
