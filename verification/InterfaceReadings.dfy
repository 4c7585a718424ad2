/** What one endpoint and one access method are normalized to, as relations between the given and the
    normalized document. */
module InterfaceReadings {
  import opened JsonValues
  import opened Wrappers
  import opened Texts
  import opened Interfaces
  import opened InterfaceFacts
  import opened InterfaceDocuments

  // The parts of an endpoint.

  /** Null, or a text that is not blank; the text is trimmed. */
  ghost predicate TextIs(value: Json, text: Option<string>) {
    if value == JNull then text == None
    else value.JText? && !IsBlank(value.text) && text == Some(Strip(value.text))
  }

  ghost predicate UrlIs(url: Option<string>, parsed: Option<Url>, rt: Runtime) {
    if url.Some? && url.value != "" && Contains(url.value, "://") then parsed.Some? && rt.split(url.value) == Ok(parsed.value)
    else parsed == None
  }

  predicate HasScheme(parsed: Option<Url>) {
    parsed.Some? && parsed.value.scheme != ""
  }

  /** The stated host, else the host name of the URL, else a URL that is nothing but a host. */
  ghost predicate HostIs(own: Option<string>, url: Option<string>, parsed: Option<Url>, host: Option<string>) {
    && (own.Some? ==> host == own)
    && (own == None && parsed.Some? ==> host == if parsed.value.hostname == "" then None else Some(parsed.value.hostname))
    && (own == None && parsed == None ==> host == if url == Some("") || (url.Some? && '/' in url.value) then None else url)
  }

  /** What a missing type is guessed from. */
  ghost predicate HintIs(protocol: Json, parsed: Option<Url>, hint: string, rt: Runtime) {
    && (HasScheme(parsed) ==> hint == rt.lower(parsed.value.scheme))
    && (!HasScheme(parsed) && protocol.JText? ==> hint == protocol.text)
    && (!HasScheme(parsed) && !protocol.JText? ==> hint == "")
  }

  ghost predicate TypeIs(value: Json, hint: string, kind: string, rt: Runtime) {
    && (value == JNull ==> TypeAlias(rt.casefold(hint)) == Some(kind) || (TypeAlias(rt.casefold(hint)) == None && kind == "TCP"))
    && (value != JNull ==>
          && value.JText? && !IsBlank(value.text)
          && (TypeAlias(rt.casefold(Strip(value.text))) == Some(kind)
              || (TypeAlias(rt.casefold(Strip(value.text))) == None && kind == Strip(value.text)
                  && (kind in ENDPOINT_TYPES || IsCustomType(kind)))))
  }

  /** The stated transport, else a protocol that names one, else udp for a UDP URL or endpoint and tcp otherwise. */
  ghost predicate TransportIs(stated: Json, protocol: Json, parsed: Option<Url>, kind: string, transport: string, rt: Runtime) {
    && (transport == "tcp" || transport == "udp")
    && (stated != JNull ==> stated == JText(transport))
    && (stated == JNull ==> !protocol.JList? && !protocol.JObject?)
    && (stated == JNull && (protocol == JText("tcp") || protocol == JText("udp")) ==> protocol == JText(transport))
    && (stated == JNull && protocol != JText("tcp") && protocol != JText("udp") ==>
          (transport == "udp" <==> (HasScheme(parsed) && rt.lower(parsed.value.scheme) == "udp") || kind == "UDP"))
  }

  /** The scheme of the URL, else the stated protocol unless it names a transport, else that of the type. */
  ghost predicate ProtocolIs(stated: Json, parsed: Option<Url>, kind: string, protocol: string, rt: Runtime) {
    var own := stated.JText? && stated.text != "tcp" && stated.text != "udp" && rt.lower(stated.text) != "";
    && IsProtocol(protocol)
    && (HasScheme(parsed) && rt.lower(parsed.value.scheme) != "" ==> protocol == rt.lower(parsed.value.scheme))
    && (!HasScheme(parsed) && own ==> protocol == rt.lower(stated.text))
    && ((if HasScheme(parsed) then rt.lower(parsed.value.scheme) == "" else !own) ==> IsTypeProtocol(kind, protocol))
  }

  /** The protocol of an endpoint that states none; a custom type has none. */
  predicate IsTypeProtocol(kind: string, protocol: string) {
    || (protocol == "http"
        && (kind == "Web" || kind == "REST API" || kind == "HEC" || kind == "Metrics" || kind == "Webhook" || kind == "HTTP"))
    || (kind == "MCP" && protocol == "mcp") || (kind == "SSH" && protocol == "ssh") || (kind == "SMB" && protocol == "smb")
    || (kind == "Database" && protocol == "database") || (kind == "S2S" && protocol == "splunk-s2s")
    || (kind == "TCP" && protocol == "tcp") || (kind == "UDP" && protocol == "udp")
  }

  ghost predicate IsDefaultPort(protocol: string, port: Option<int>) {
    && (port == Some(80) <==> protocol == "http") && (port == Some(443) <==> protocol == "https")
    && (port == Some(22) <==> protocol == "ssh") && (port == Some(445) <==> protocol == "smb")
    && (port.Some? ==> port.value == 80 || port.value == 443 || port.value == 22 || port.value == 445)
  }

  /** The stated port, else that of the URL, else that of the protocol; the URL must not have an invalid one. */
  ghost predicate PortIs(stated: Json, parsed: Option<Url>, protocol: string, port: Option<int>) {
    && (port.Some? ==> 1 <= port.value <= 65535)
    && (stated != JNull ==> port.Some? && stated == JInt(port.value))
    && (stated == JNull ==> parsed.Some? ==> parsed.value.port.Ok?)
    && (stated == JNull && parsed.Some? && parsed.value.port.Ok? && parsed.value.port.value.Some? ==>
          port == parsed.value.port.value)
    && (stated == JNull && (parsed == None || parsed.value.port == Ok(None)) ==> IsDefaultPort(protocol, port))
  }

  /** The stated path, where an empty one counts as none, else that of the URL unless it is the root. */
  ghost predicate PathIs(stated: Json, parsed: Option<Url>, path: Option<string>) {
    && (stated == JText("") ==> path == None)
    && (stated != JNull && stated != JText("") ==> stated.JText? && !IsBlank(stated.text) && path == Some(stated.text))
    && (stated == JNull ==>
          if parsed.Some? && parsed.value.path != "" && parsed.value.path != "/"
          then !IsBlank(parsed.value.path) && path == Some(parsed.value.path)
          else path == None)
  }

  ghost predicate ExposureIs(stated: Option<Json>, exposure: string) {
    exposure in EXPOSURES && if stated == None then exposure == "unknown" else stated == Some(JText(exposure))
  }

  ghost predicate IdIs(stated: Json, f: Facts, used: set<string>, id: string, rt: Runtime) {
    if stated == JNull then IdOf(JNull, f.kind, f.port, f.host, used, rt) == Ok(id)
    else stated == JText(id) && IsIdentifier(id) && !IsBlank(id) && id !in used
  }

  // Each step meets its relation.

  lemma TextIff(value: Json, text: Option<string>)
    ensures OptionalText(value) == Ok(text) <==> TextIs(value, text)
  {
    hide Strip, IsBlank;
  }

  lemma UrlIff(url: Option<string>, parsed: Option<Url>, rt: Runtime)
    ensures ParseUrl(url, rt) == Ok(parsed) <==> UrlIs(url, parsed, rt)
  {
    hide Contains;
  }

  lemma HostIff(own: Option<string>, url: Option<string>, parsed: Option<Url>, host: Option<string>)
    ensures HostOf(own, url, parsed) == host <==> HostIs(own, url, parsed, host)
  {
  }

  lemma TypeIff(value: Json, protocol: Json, parsed: Option<Url>, kind: string, hint: string, rt: Runtime)
    requires HintIs(protocol, parsed, hint, rt)
    ensures NormalizeType(value, if UrlProtocol(parsed, rt).Some? then UrlProtocol(parsed, rt)
                                 else if protocol.JText? then Some(protocol.text) else None, rt) == Ok(kind)
            <==> TypeIs(value, hint, kind, rt)
  {
    hide TypeAlias, Strip, IsBlank, IsCustomType;
  }

  lemma TransportIff(stated: Json, protocol: Json, parsed: Option<Url>, kind: string, transport: string, rt: Runtime)
    ensures TransportOf(stated, protocol, UrlProtocol(parsed, rt), kind) == Ok(transport)
            <==> TransportIs(stated, protocol, parsed, kind, transport, rt)
  {
  }

  lemma TypeProtocolIff(kind: string, protocol: string)
    ensures TypeProtocol(kind) == Some(protocol) <==> IsTypeProtocol(kind, protocol)
  {
  }

  lemma DefaultPortIff(protocol: string, port: Option<int>)
    ensures DefaultPort(protocol) == port <==> IsDefaultPort(protocol, port)
  {
  }

  lemma ProtocolIff(stated: Json, parsed: Option<Url>, kind: string, protocol: string, rt: Runtime)
    ensures ProtocolOf(stated, UrlProtocol(parsed, rt), kind, rt) == Ok(protocol)
            <==> ProtocolIs(stated, parsed, kind, protocol, rt)
  {
    hide TypeProtocol, IsTypeProtocol, IsProtocol;
    TypeProtocolIff(kind, protocol);
  }

  lemma PortIff(stated: Json, parsed: Option<Url>, protocol: string, port: Option<int>)
    ensures PortOf(stated, parsed, protocol) == Ok(port) <==> PortIs(stated, parsed, protocol, port)
  {
    hide DefaultPort, IsDefaultPort;
    DefaultPortIff(protocol, port);
    DefaultPortIff(protocol, DefaultPort(protocol));
    DefaultInRange(protocol);
  }

  lemma DefaultInRange(protocol: string)
    ensures DefaultPort(protocol).Some? ==> 1 <= DefaultPort(protocol).value <= 65535
  {
  }

  lemma PathIff(stated: Json, parsed: Option<Url>, path: Option<string>)
    ensures PathOf(stated, parsed) == Ok(path) <==> PathIs(stated, parsed, path)
  {
    hide IsBlank;
  }

  lemma ExposureIff(stated: Option<Json>, exposure: string)
    ensures ExposureOf(stated) == Ok(exposure) <==> ExposureIs(stated, exposure)
  {
  }

  lemma IdIff(stated: Json, f: Facts, used: set<string>, id: string, rt: Runtime)
    ensures IdOf(stated, f.kind, f.port, f.host, used, rt) == Ok(id) <==> IdIs(stated, f, used, id, rt)
  {
    hide IsIdentifier, IsBlank, UniqueIdentifier;
  }

  // Whole endpoints.

  /** The facts the given document states, with its URL as it is read. */
  ghost predicate Reads(raw: Endpoint, own: Option<string>, parsed: Option<Url>, hint: string, f: Facts, rt: Runtime) {
    && TextIs(Get(raw.url), f.url) && TextIs(Get(raw.host), own)
    && UrlIs(f.url, parsed, rt) && HostIs(own, f.url, parsed, f.host)
    && (f.host.Some? || f.url.Some?)
    && HintIs(Get(raw.protocol), parsed, hint, rt) && TypeIs(Get(raw.kind), hint, f.kind, rt)
    && TransportIs(Get(raw.transport), Get(raw.protocol), parsed, f.kind, f.transport, rt)
    && ProtocolIs(Get(raw.protocol), parsed, f.kind, f.protocol, rt)
    && PortIs(Get(raw.port), parsed, f.protocol, f.port)
    && PathIs(Get(raw.path), parsed, f.path)
    && ExposureIs(raw.exposure, f.exposure)
  }

  ghost predicate Readable(raw: Endpoint, f: Facts, rt: Runtime) {
    exists own, parsed, hint :: Reads(raw, own, parsed, hint, f, rt)
  }

  /** The normalized document shows the facts and the id, and keeps the rest. */
  ghost predicate Shows(e: Endpoint, raw: Endpoint, f: Facts, id: string) {
    && e.id == Some(JText(id)) && e.kind == Some(JText(f.kind))
    && e.protocol == Some(JText(f.protocol)) && e.transport == Some(JText(f.transport))
    && e.exposure == Some(JText(f.exposure))
    && (if f.url.Some? then e.url == Some(JText(f.url.value)) else e.url == raw.url)
    && (if f.host.Some? then e.host == Some(JText(f.host.value)) else e.host == raw.host)
    && (if f.port.Some? then e.port == Some(JInt(f.port.value)) else e.port == raw.port)
    && (if f.path.Some? then e.path == Some(JText(f.path.value)) else e.path == None)
    && (if raw.caption.Some? then e.caption == raw.caption else e.caption == raw.name)
    && e.name == raw.name && e.healthUrl == raw.healthUrl && e.rest == raw.rest
  }

  ghost predicate HealthFits(raw: Endpoint) {
    raw.healthUrl == None || (raw.healthUrl.value.JText? && !IsBlank(raw.healthUrl.value.text))
  }

  function HintOf(protocol: Json, parsed: Option<Url>, rt: Runtime): (hint: string)
    ensures HintIs(protocol, parsed, hint, rt)
  {
    if HasScheme(parsed) then rt.lower(parsed.value.scheme) else if protocol.JText? then protocol.text else ""
  }

  lemma HintUnique(protocol: Json, parsed: Option<Url>, hint: string, rt: Runtime)
    requires HintIs(protocol, parsed, hint, rt)
    ensures hint == HintOf(protocol, parsed, rt)
  {
  }

  lemma ReadableFacts(raw: Endpoint, own: Option<string>, parsed: Option<Url>, hint: string, f: Facts, rt: Runtime)
    requires Reads(raw, own, parsed, hint, f, rt)
    ensures FactsOf(raw, rt) == Ok(f)
  {
    hide OptionalText, ParseUrl, HostOf, NormalizeType, TransportOf, ProtocolOf, PortOf, PathOf, ExposureOf, UrlProtocol,
         TextIs, UrlIs, HostIs, HintIs, TypeIs, TransportIs, ProtocolIs, PortIs, PathIs, ExposureIs;
    TextIff(Get(raw.url), f.url);
    TextIff(Get(raw.host), own);
    UrlIff(f.url, parsed, rt);
    HostIff(own, f.url, parsed, f.host);
    TypeIff(Get(raw.kind), Get(raw.protocol), parsed, f.kind, hint, rt);
    TransportIff(Get(raw.transport), Get(raw.protocol), parsed, f.kind, f.transport, rt);
    ProtocolIff(Get(raw.protocol), parsed, f.kind, f.protocol, rt);
    PortIff(Get(raw.port), parsed, f.protocol, f.port);
    PathIff(Get(raw.path), parsed, f.path);
    ExposureIff(raw.exposure, f.exposure);
  }

  lemma FactsAreReadable(raw: Endpoint, f: Facts, rt: Runtime)
    requires FactsOf(raw, rt) == Ok(f)
    ensures Readable(raw, f, rt)
  {
    hide OptionalText, ParseUrl, HostOf, NormalizeType, TransportOf, ProtocolOf, PortOf, PathOf, ExposureOf, UrlProtocol,
         TextIs, UrlIs, HostIs, HintIs, TypeIs, TransportIs, ProtocolIs, PortIs, PathIs, ExposureIs, HintOf;
    var own := OptionalText(Get(raw.host)).value;
    var parsed := ParseUrl(f.url, rt).value;
    var hint := HintOf(Get(raw.protocol), parsed, rt);
    TextIff(Get(raw.url), f.url);
    TextIff(Get(raw.host), own);
    UrlIff(f.url, parsed, rt);
    HostIff(own, f.url, parsed, f.host);
    TypeIff(Get(raw.kind), Get(raw.protocol), parsed, f.kind, hint, rt);
    TransportIff(Get(raw.transport), Get(raw.protocol), parsed, f.kind, f.transport, rt);
    ProtocolIff(Get(raw.protocol), parsed, f.kind, f.protocol, rt);
    PortIff(Get(raw.port), parsed, f.protocol, f.port);
    PathIff(Get(raw.path), parsed, f.path);
    ExposureIff(raw.exposure, f.exposure);
    assert Reads(raw, own, parsed, hint, f, rt);
  }

  lemma WriteShows(raw: Endpoint, f: Facts, id: string, e: Endpoint)
    ensures e == Write(raw, f, id) <==> Shows(e, raw, f, id)
  {
  }

  lemma HealthIff(raw: Endpoint)
    ensures raw.healthUrl.Some? && RequireText(raw.healthUrl.value).Err? <==> !HealthFits(raw)
  {
    hide IsBlank;
  }

  /** An endpoint is normalized to a document exactly when the given one states some facts, an id is found
      for them, and the document shows them. */
  lemma EndpointIff(raw: Endpoint, used: set<string>, rt: Runtime, e: Endpoint)
    ensures NormalizeEndpoint(raw, used, rt) == Ok(e) <==>
            HealthFits(raw) && exists f, id :: Readable(raw, f, rt) && IdIs(Get(raw.id), f, used, id, rt) && Shows(e, raw, f, id)
  {
    hide FactsOf, IdOf, IdIs, Write, Shows, RequireText, HealthFits, Readable, IsIdentifier;
    HealthIff(raw);
    forall f ensures FactsOf(raw, rt) == Ok(f) <==> Readable(raw, f, rt) {
      FactsIff(raw, f, rt);
    }
    forall f: Facts, id ensures IdOf(Get(raw.id), f.kind, f.port, f.host, used, rt) == Ok(id) <==> IdIs(Get(raw.id), f, used, id, rt) {
      IdIff(Get(raw.id), f, used, id, rt);
    }
    forall f, id ensures e == Write(raw, f, id) <==> Shows(e, raw, f, id) {
      WriteShows(raw, f, id, e);
    }
  }

  lemma FactsIff(raw: Endpoint, f: Facts, rt: Runtime)
    ensures FactsOf(raw, rt) == Ok(f) <==> Readable(raw, f, rt)
  {
    hide FactsOf, Reads;
    if FactsOf(raw, rt) == Ok(f) {
      FactsAreReadable(raw, f, rt);
    }
    if own, parsed, hint :| Reads(raw, own, parsed, hint, f, rt) {
      ReadableFacts(raw, own, parsed, hint, f, rt);
    }
  }

  // Access methods.

  /** A method without an endpoint: neither URL nor id, or an empty legacy URL without one. */
  ghost predicate LinksNowhere(reg: Registry, raw: Access, link: Link) {
    Get(raw.endpoint) == JNull && Get(raw.endpointId) == JNull && link == Link(reg, None, JNull, false)
  }

  /** An empty legacy URL is dropped, and the id is taken as it stands. */
  ghost predicate LinksLegacy(reg: Registry, raw: Access, allowLegacy: bool, link: Link) {
    && allowLegacy && Get(raw.endpoint).JText? && IsBlank(Get(raw.endpoint).text)
    && link == Link(reg, None, Get(raw.endpointId), true)
  }

  /** An id alone names an endpoint so far. */
  ghost predicate LinksById(reg: Registry, raw: Access, link: Link) {
    && Get(raw.endpoint) == JNull && Get(raw.endpointId).JText?
    && IsIdentifier(Get(raw.endpointId).text) && !IsBlank(Get(raw.endpointId).text)
    && Get(raw.endpointId).text in reg.ids
    && link == Link(reg, None, Get(raw.endpointId), false)
  }

  /** A known URL names its endpoint, which an id may only repeat. */
  ghost predicate LinksByUrl(reg: Registry, raw: Access, link: Link) {
    && Get(raw.endpoint).JText? && !IsBlank(Get(raw.endpoint).text) && Strip(Get(raw.endpoint).text) in reg.byUrl
    && link == Link(reg, Some(Get(raw.endpoint).text), JText(IdText(reg.byUrl[Strip(Get(raw.endpoint).text)])), false)
    && (Get(raw.endpointId) == JNull || Get(raw.endpointId) == link.endpointId)
  }

  /** An unknown URL becomes an endpoint, whatever id the method states. */
  ghost predicate LinksNew(reg: Registry, raw: Access, link: Link, rt: Runtime) {
    && Get(raw.endpoint).JText? && !IsBlank(Get(raw.endpoint).text) && Strip(Get(raw.endpoint).text) !in reg.byUrl
    && exists p, e :: IsPromotion(p, raw, rt) && NormalizeEndpoint(p, reg.ids, rt) == Ok(e)
                      && link == Link(Register(reg, e), Some(Get(raw.endpoint).text), JText(IdText(e)), false)
  }

  /** The promoted endpoint has the URL, the exposure and the purpose of the method, and a type for its access. */
  ghost predicate IsPromotion(p: Endpoint, raw: Access, rt: Runtime) {
    && p.url == raw.endpoint && p.caption == Some(Get(raw.purpose))
    && (exists kind :: TypeForAccess(Get(raw.kind), kind, rt) && p.kind == Some(JText(kind)))
    && (if raw.exposure.Some? then p.exposure == raw.exposure else p.exposure == Some(JText("unknown")))
    && p.id == None && p.host == None && p.protocol == None && p.transport == None && p.port == None && p.path == None
    && p.name == None && p.healthUrl == None && p.rest == map[]
  }

  /** What Python counts as false. */
  predicate IsFalsy(v: Json) {
    v == JNull || v == JBool(false) || v == JInt(0) || v == JReal(0.0) || v == JText("") || v == JList([]) || v == JObject(map[])
  }

  /** The text of an access type; nothing reads as "other". */
  ghost predicate AccessText(v: Json, text: string, rt: Runtime) {
    && (IsFalsy(v) ==> text == "other")
    && (!IsFalsy(v) && v.JText? ==> text == v.text)
    && (!IsFalsy(v) && !v.JText? ==> text == rt.show(v))
  }

  /** The type of the endpoint an access method is promoted to: that of its access type, where two short names
      are read in any case, and TCP for every other. */
  ghost predicate TypeForAccess(v: Json, kind: string, rt: Runtime) {
    exists text :: AccessText(v, text, rt)
      && var web, api := rt.lower(text) == "web", rt.lower(text) == "api";
         && (kind == "SSH" <==> !web && !api && text == "ssh")
         && (kind == "Web" <==> web || (!api && text == "admin_web"))
         && (kind == "REST API" <==> !web && (api || text == "admin_api"))
         && (kind == "Database" <==> !web && !api && text == "database")
         && (kind == "SMB" <==> !web && !api && text == "smb")
         && (kind == "TCP" || kind == "SSH" || kind == "Web" || kind == "REST API" || kind == "Database" || kind == "SMB")
  }

  lemma TypeForAccessIff(v: Json, kind: string, rt: Runtime)
    ensures EndpointTypeFor(v, rt) == kind <==> TypeForAccess(v, kind, rt)
  {
    var text := if IsFalsy(v) then "other" else if v.JText? then v.text else rt.show(v);
    assert AccessText(v, text, rt);
  }

  ghost predicate Links(reg: Registry, raw: Access, allowLegacy: bool, link: Link, rt: Runtime) {
    if LinksSomeLegacy(raw, allowLegacy) then LinksLegacy(reg, raw, allowLegacy, link)
    else LinksNowhere(reg, raw, link) || LinksById(reg, raw, link) || LinksByUrl(reg, raw, link) || LinksNew(reg, raw, link, rt)
  }

  predicate LinksSomeLegacy(raw: Access, allowLegacy: bool) {
    allowLegacy && Get(raw.endpoint).JText? && IsBlank(Get(raw.endpoint).text)
  }

  lemma PromotionIff(raw: Access, url: string, rt: Runtime, p: Endpoint)
    requires raw.endpoint == Some(JText(url))
    ensures p == Promotion(raw, url, rt) <==> IsPromotion(p, raw, rt)
  {
    hide EndpointTypeFor, TypeForAccess;
    forall kind ensures EndpointTypeFor(Get(raw.kind), rt) == kind <==> TypeForAccess(Get(raw.kind), kind, rt) {
      TypeForAccessIff(Get(raw.kind), kind, rt);
    }
  }

  /** A method is linked in exactly one of five ways, and a method that fits none is rejected. */
  lemma LinkIff(reg: Registry, raw: Access, allowLegacy: bool, rt: Runtime, link: Link)
    ensures LinkOf(reg, raw, allowLegacy, rt) == Ok(link) <==> Links(reg, raw, allowLegacy, link, rt)
  {
    hide NormalizeEndpoint, Promotion, IsPromotion, IsIdentifier, IsBlank, Strip, Register, IdText;
    if Get(raw.endpoint).JText? {
      forall p ensures p == Promotion(raw, Get(raw.endpoint).text, rt) <==> IsPromotion(p, raw, rt) {
        PromotionIff(raw, Get(raw.endpoint).text, rt, p);
      }
    }
  }

  ghost predicate AccessTypeIs(value: Json, kind: string, rt: Runtime) {
    && (value == JNull ==> kind == "other")
    && (value != JNull ==>
          value.JText? && !IsBlank(value.text) && kind in ACCESS_TYPES
          && var lowered := rt.lower(Strip(value.text));
             (lowered == "web" ==> kind == "admin_web") && (lowered == "api" ==> kind == "admin_api")
             && (lowered != "web" && lowered != "api" ==> kind == lowered))
  }

  lemma AccessTypeIff(value: Json, kind: string, rt: Runtime)
    ensures NormalizeAccessType(value, rt) == Ok(kind) <==> AccessTypeIs(value, kind, rt)
  {
    hide Strip, IsBlank;
  }

  /** A missing id is made from the type and the endpoint; a stated one is new. */
  ghost predicate AccessIdIs(raw: Access, kind: string, endpointId: Json, used: set<string>, id: string, rt: Runtime) {
    && (Get(raw.id) == JNull ==>
          (endpointId == JNull || endpointId.JText?)
          && id == UniqueIdentifier(if endpointId.JText? && endpointId.text != "" && kind != "" then kind + "-" + endpointId.text
                                    else if endpointId.JText? && endpointId.text != "" then endpointId.text else kind,
                                    used, "access", rt.lower))
    && (Get(raw.id) != JNull ==> Get(raw.id) == JText(id) && IsIdentifier(id) && !IsBlank(id) && id !in used)
  }

  lemma TwoParts(a: string, b: string)
    ensures JoinParts([a, b]) == if a == "" then b else if b == "" then a else a + "-" + b
  {
    assert [a, b][1..] == [b] && [b][1..] == [];
    assert JoinParts([b]) == b;
  }

  lemma AccessIdIff(raw: Access, kind: string, endpointId: Json, used: set<string>, id: string, rt: Runtime)
    ensures AccessIdOf(raw, kind, endpointId, used, rt) == Ok(id) <==> AccessIdIs(raw, kind, endpointId, used, id, rt)
  {
    hide IsIdentifier, IsBlank, UniqueIdentifier, JoinParts;
    FallbacksAreIdentifiers();
    TwoParts(kind, if endpointId.JText? then endpointId.text else "");
  }

  ghost predicate NamesCredential(v: Json) {
    exists id :: id != "" && v == JText("credential_reference:" + id)
  }

  /** References to stored credentials: a list of texts that each name one. */
  ghost predicate CredentialsFit(credentials: Option<Json>) {
    Get(credentials) == JNull
    || (Get(credentials).JList?
        && forall i | 0 <= i < |Get(credentials).items| :: NamesCredential(Get(credentials).items[i]))
  }

  lemma CredentialIff(v: Json)
    ensures v.JText? && "credential_reference:" <= v.text && |v.text| > |"credential_reference:"| <==> NamesCredential(v)
  {
    var prefix := "credential_reference:";
    if v.JText? && prefix <= v.text && |v.text| > |prefix| {
      assert v.text == prefix + v.text[|prefix|..];
      assert v.text[|prefix|..] != "";
    }
    if id :| id != "" && v == JText(prefix + id) {
      assert prefix <= prefix + id;
    }
  }

  lemma CredentialsIff(credentials: Option<Json>)
    ensures CredentialsValid(credentials) <==> CredentialsFit(credentials)
  {
    hide NamesCredential;
    var value := Get(credentials);
    if value.JList? {
      forall i | 0 <= i < |value.items| {
        CredentialIff(value.items[i]);
      }
      forall v | v in value.items {
        CredentialIff(v);
      }
    }
  }

  /** The normalized method names its endpoint by id and URL, loses a dropped URL, and keeps the rest. */
  ghost predicate MethodShows(m: Access, raw: Access, link: Link, kind: string, id: string) {
    && m.id == Some(JText(id)) && m.kind == Some(JText(kind))
    && m.exposure == raw.exposure && m.purpose == raw.purpose && m.credentials == raw.credentials && m.rest == raw.rest
    && (if link.endpointId == JNull
        then m.endpointId == raw.endpointId && (if link.dropUrl then m.endpoint == None else m.endpoint == raw.endpoint)
        else
          && m.endpointId == Some(link.endpointId)
          && (if link.url.Some? then m.endpoint == Some(JText(link.url.value))
              else exists e :: FindById(link.registry.endpoints, link.endpointId) == Some(e)
                               && m.endpoint == Some(JText(EndpointUrl(e)))))
  }

  /** A method is taken exactly when it is an object that is linked, has an access type, an id and
      credential references, and whose endpoint is there. */
  lemma AccessIff(st: AccessState, item: Item<Access>, allowLegacy: bool, rt: Runtime, next: AccessState)
    ensures AddAccess(st, item, allowLegacy, rt) == Ok(next) <==>
            && item.Doc? && CredentialsFit(item.doc.credentials)
            && exists link, kind, id, m ::
                 && Links(st.registry, item.doc, allowLegacy, link, rt) && AccessTypeIs(Get(item.doc.kind), kind, rt)
                 && AccessIdIs(item.doc, kind, link.endpointId, st.ids, id, rt)
                 && (link.endpointId != JNull ==> FindById(link.registry.endpoints, link.endpointId).Some?)
                 && MethodShows(m, item.doc, link, kind, id)
                 && next == AccessState(link.registry, st.methods + [m], st.ids + {id})
  {
    hide LinkOf, Links, NormalizeAccessType, AccessTypeIs, AccessIdOf, AccessIdIs, CredentialsValid, CredentialsFit, FindById,
         EndpointUrl, IsIdentifier;
    if item.Doc? {
      CredentialsIff(item.doc.credentials);
      forall link ensures LinkOf(st.registry, item.doc, allowLegacy, rt) == Ok(link)
                          <==> Links(st.registry, item.doc, allowLegacy, link, rt)
      {
        LinkIff(st.registry, item.doc, allowLegacy, rt, link);
      }
      forall kind ensures NormalizeAccessType(Get(item.doc.kind), rt) == Ok(kind) <==> AccessTypeIs(Get(item.doc.kind), kind, rt) {
        AccessTypeIff(Get(item.doc.kind), kind, rt);
      }
      forall kind, endpointId, id ensures AccessIdOf(item.doc, kind, endpointId, st.ids, rt) == Ok(id)
                                          <==> AccessIdIs(item.doc, kind, endpointId, st.ids, id, rt)
      {
        AccessIdIff(item.doc, kind, endpointId, st.ids, id, rt);
      }
      MethodsAgree(st, item.doc, allowLegacy, rt, next);
    }
  }

  lemma MethodsAgree(st: AccessState, raw: Access, allowLegacy: bool, rt: Runtime, next: AccessState)
    ensures forall link: Link, kind, id, m ::
              (link.endpointId != JNull ==> FindById(link.registry.endpoints, link.endpointId).Some?) ==>
              (MethodShows(m, raw, link, kind, id)
               <==> m == WriteAccess(raw, link, kind, id, FindById(link.registry.endpoints, link.endpointId)))
  {
    hide FindById, EndpointUrl;
  }

  // Ports and the service part.

  /** A port has a number, a transport, which an older protocol may state, and an exposure. */
  ghost predicate PortShows(p: Port, raw: Port) {
    && raw.port.Some? && raw.port.value.JInt? && 1 <= raw.port.value.number <= 65535 && p.port == raw.port
    && (p.transport == Some(JText("tcp")) || p.transport == Some(JText("udp")))
    && (raw.transport.Some? ==> p.transport == raw.transport)
    && (raw.transport == None && raw.protocol.Some? ==> p.transport == raw.protocol)
    && (raw.transport == None && raw.protocol == None ==> p.transport == Some(JText("tcp")))
    && (exists exposure :: ExposureIs(raw.exposure, exposure) && p.exposure == Some(JText(exposure)))
    && p.protocol == None && p.rest == raw.rest
  }

  lemma PortShowsIff(raw: Port, p: Port)
    ensures NormalizePort(raw) == Ok(p) <==> PortShows(p, raw)
  {
    forall exposure ensures ExposureOf(raw.exposure) == Ok(exposure) <==> ExposureIs(raw.exposure, exposure) {
      ExposureIff(raw.exposure, exposure);
    }
  }

  /** Some endpoint listens on the port. */
  ghost predicate Listens(endpoints: seq<Endpoint>, p: Port) {
    exists e :: e in endpoints && e.port == p.port && e.transport == p.transport
  }

  ghost predicate TakesPort(st: PortState, endpoints: seq<Endpoint>, p: Port, next: PortState) {
    if Listens(endpoints, p) || (exists q :: q in st.ports && q.port == p.port && q.transport == p.transport)
    then next == st
    else next == PortState(st.ports + [p], st.seen + {SocketOf(p)})
  }

  /** What the loop over the ports keeps: normalized ports, whose sockets are those it has seen. */
  ghost predicate PortsAreSeen(st: PortState) {
    && (forall s :: s in st.seen <==> exists q :: q in st.ports && SocketOf(q) == s)
    && (forall q | q in st.ports :: exists raw :: PortShows(q, raw))
  }

  lemma {:induction false} AddedPortsAreSeen(items: seq<Item<Port>>, taken: set<Socket>)
    ensures AddPorts(items, taken).Ok? ==> PortsAreSeen(AddPorts(items, taken).value)
  {
    hide NormalizePort, SocketOf, PortShows;
    if items != [] && AddPorts(items, taken).Ok? {
      AddedPortsAreSeen(items[..|items| - 1], taken);
      var raw := items[|items| - 1].doc;
      PortShowsIff(raw, NormalizePort(raw).value);
    }
  }

  /** A port is kept exactly when no endpoint and no port before it has its number and transport. */
  lemma PortTakenIff(st: PortState, item: Item<Port>, endpoints: seq<Endpoint>, next: PortState)
    requires PortsAreSeen(st)
    ensures AddPort(st, item, SocketsOf(endpoints)) == Ok(next) <==>
            item.Doc? && exists p :: PortShows(p, item.doc) && TakesPort(st, endpoints, p, next)
  {
    hide PortShows, SocketsOf, SocketOf, Listens, NormalizePort;
    if item.Doc? {
      forall p ensures NormalizePort(item.doc) == Ok(p) <==> PortShows(p, item.doc) {
        PortShowsIff(item.doc, p);
      }
      forall p | PortShows(p, item.doc)
        ensures SocketOf(p) in SocketsOf(endpoints) <==> Listens(endpoints, p)
        ensures SocketOf(p) in st.seen <==> exists q :: q in st.ports && q.port == p.port && q.transport == p.transport
      {
        ListensIff(endpoints, p, item.doc);
        forall q | q in st.ports ensures SocketOf(q) == SocketOf(p) <==> q.port == p.port && q.transport == p.transport {
          var raw :| PortShows(q, raw);
          SameSocket(p, item.doc, q, raw);
        }
      }
    }
  }

  lemma SameSocket(p: Port, rawP: Port, q: Port, rawQ: Port)
    requires PortShows(p, rawP) && PortShows(q, rawQ)
    ensures SocketOf(q) == SocketOf(p) <==> q.port == p.port && q.transport == p.transport
  {
    hide ExposureIs;
  }

  lemma ListensIff(endpoints: seq<Endpoint>, p: Port, raw: Port)
    requires PortShows(p, raw)
    ensures SocketOf(p) in SocketsOf(endpoints) <==> Listens(endpoints, p)
  {
    hide ExposureIs;
    if e :| e in endpoints && Get(e.port).JInt? && Get(e.transport).JText?
            && (Get(e.port).number, Get(e.transport).text) == SocketOf(p) {
      assert e.port == p.port && e.transport == p.transport;
    }
  }

  /** The interface of a service: a stated one must agree with the endpoints, a missing one is made up. */
  ghost predicate ServiceShows(out: InterfaceField, data: Data, hasEndpoints: bool, rt: Runtime) {
    match data.interface_
    case NotInterface => false
    case InterfaceDoc(state, _, _) =>
      && out == data.interface_
      && (if hasEndpoints then state == Some(JText("available"))
          else state == Some(JText("not_applicable")) || state == Some(JText("incomplete")))
    case _ =>
      && out.InterfaceDoc? && out.rest == map[]
      && (hasEndpoints ==> out.state == Some(JText("available")) && out.reason == None)
      && (!hasEndpoints && LegacyMember(data.legacyInterface, "endpoint_required") == JBool(false) ==>
            out.state == Some(JText("not_applicable")) && out.reason.Some? && out.reason.value.JText?
            && (LegacyMember(data.legacyInterface, "type").JText? && LegacyMember(data.legacyInterface, "type").text != "" ==>
                  out.reason == Some(LegacyMember(data.legacyInterface, "type")))
            && (LegacyMember(data.legacyInterface, "type") == JNull ==> out.reason == Some(JText("internal service"))))
      && (!hasEndpoints && LegacyMember(data.legacyInterface, "endpoint_required") != JBool(false) ==>
            out.state == Some(JText("incomplete")) && out.reason == None)
  }

  lemma ServiceShowsIff(data: Data, hasEndpoints: bool, rt: Runtime, out: InterfaceField)
    ensures ServiceInterface(data, hasEndpoints, rt) == Ok(out) ==> ServiceShows(out, data, hasEndpoints, rt)
    ensures ServiceInterface(data, hasEndpoints, rt).Ok? <==> exists o :: ServiceShows(o, data, hasEndpoints, rt)
  {
    hide LegacyMember;
    if ServiceInterface(data, hasEndpoints, rt).Ok? {
      assert ServiceShows(ServiceInterface(data, hasEndpoints, rt).value, data, hasEndpoints, rt);
    }
  }

  // Whole documents.

  /** The field is missing or a list of objects. */
  ghost predicate ListsDocs<T>(field: Option<Listed<T>>) {
    field.Some? ==> field.value.Items? && forall i | 0 <= i < |field.value.items| :: field.value.items[i].Doc?
  }

  lemma {:induction false} EndpointsAreDocs(items: seq<Item<Endpoint>>, rt: Runtime)
    requires AddEndpoints(items, rt).Ok?
    ensures forall i | 0 <= i < |items| :: items[i].Doc?
  {
    hide NormalizeEndpoint, Fingerprint;
    if items != [] {
      EndpointsAreDocs(items[..|items| - 1], rt);
    }
  }

  lemma {:induction false} MethodsAreDocs(reg: Registry, items: seq<Item<Access>>, allowLegacy: bool, rt: Runtime)
    requires AddAccessMethods(reg, items, allowLegacy, rt).Ok?
    ensures forall i | 0 <= i < |items| :: items[i].Doc?
    ensures |AddAccessMethods(reg, items, allowLegacy, rt).value.methods| == |items|
  {
    hide LinkOf, NormalizeAccessType, AccessIdOf, CredentialsValid, WriteAccess, FindById;
    if items != [] {
      MethodsAreDocs(reg, items[..|items| - 1], allowLegacy, rt);
    }
  }

  lemma {:induction false} PortsAreDocs(items: seq<Item<Port>>, taken: set<Socket>)
    requires AddPorts(items, taken).Ok?
    ensures forall i | 0 <= i < |items| :: items[i].Doc?
  {
    hide NormalizePort, SocketOf;
    if items != [] {
      PortsAreDocs(items[..|items| - 1], taken);
    }
  }

  /** Only documents whose lists are lists of objects are normalized; a list stays missing if it was, but that
      of the endpoints appears with an access method, and whatever is not about interfaces stays. */
  lemma DocumentTells(data: Data, isService: bool, allowLegacy: bool, rt: Runtime, out: Data)
    requires NormalizeData(data, isService, allowLegacy, rt) == Ok(out)
    ensures ListsDocs(data.endpoints) && ListsDocs(data.accessMethods) && ListsDocs(data.ports)
    ensures ListsDocs(out.endpoints) && ListsDocs(out.accessMethods) && ListsDocs(out.ports)
    ensures out.endpoints.Some? <==> data.endpoints.Some? || (data.accessMethods.Some? && data.accessMethods.value.items != [])
    ensures out.accessMethods.Some? <==> data.accessMethods.Some?
    ensures out.accessMethods.Some? ==> |out.accessMethods.value.items| == |data.accessMethods.value.items|
    ensures out.ports.Some? <==> data.ports.Some?
    ensures !isService ==> out.interface_ == data.interface_
    ensures out.legacyInterface == data.legacyInterface && out.rest == data.rest
  {
    hide AddEndpoints, AddAccessMethods, AddPorts, ServiceInterface, SocketsOf;
    var rawEndpoints, rawMethods, rawPorts := ListOf(data.endpoints).value, ListOf(data.accessMethods).value, ListOf(data.ports).value;
    EndpointsAreDocs(rawEndpoints, rt);
    var reg := AddEndpoints(rawEndpoints, rt).value;
    MethodsAreDocs(reg, rawMethods, allowLegacy, rt);
    var st := AddAccessMethods(reg, rawMethods, allowLegacy, rt).value;
    PortsAreDocs(rawPorts, SocketsOf(st.registry.endpoints));
  }
}
