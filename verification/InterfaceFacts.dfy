/** When the canonical form of one endpoint is stable. */
module InterfaceFacts {
  import opened JsonValues
  import opened Wrappers
  import opened Texts
  import opened Interfaces

  // Vocabularies are stable.

  lemma NoOuterSpace(s: string)
    requires s != [] && !IsSpace(s[0]) && !IsSpace(s[|s| - 1])
    ensures Strip(s) == s
  {
  }

  lemma CanonicalTypesAreText(t: string)
    requires t in ENDPOINT_TYPES
    ensures t != "" && Strip(t) == t
  {
    NoOuterSpace(t);
  }

  lemma CanonicalTypesAreAscii(t: string)
    requires t in ENDPOINT_TYPES
    ensures IsAscii(t)
  {
    forall i | 0 <= i < |t| ensures t[i] < 128 as char {
    }
  }

  lemma LowersTo(t: string, lowered: string)
    requires |t| == |lowered| && forall i | 0 <= i < |t| :: AsciiLowerChar(t[i]) == lowered[i]
    ensures AsciiLower(t) == lowered
  {
  }

  lemma WebTypesAreFixed(t: string)
    requires t in {"Web", "REST API", "MCP", "HEC"}
    ensures TypeAlias(AsciiLower(t)) == Some(t)
  {
    hide AsciiLower;
    if t == "Web" { LowersTo(t, "web"); }
    else if t == "REST API" { LowersTo(t, "rest api"); }
    else if t == "MCP" { LowersTo(t, "mcp"); }
    else { LowersTo(t, "hec"); }
  }

  lemma ServiceTypesAreFixed(t: string)
    requires t in {"SSH", "SMB", "Database", "S2S"}
    ensures TypeAlias(AsciiLower(t)) == Some(t)
  {
    hide AsciiLower;
    if t == "SSH" { LowersTo(t, "ssh"); }
    else if t == "SMB" { LowersTo(t, "smb"); }
    else if t == "Database" { LowersTo(t, "database"); }
    else { LowersTo(t, "s2s"); }
  }

  lemma RequestTypesAreFixed(t: string)
    requires t in {"Metrics", "Webhook", "HTTP"}
    ensures TypeAlias(AsciiLower(t)) == Some(t)
  {
    hide AsciiLower;
    if t == "Metrics" { LowersTo(t, "metrics"); }
    else if t == "Webhook" { LowersTo(t, "webhook"); }
    else { LowersTo(t, "http"); }
  }

  lemma TransportTypesAreFixed(t: string)
    requires t in {"TCP", "UDP"}
    ensures TypeAlias(AsciiLower(t)) == Some(t)
  {
    hide AsciiLower;
    if t == "TCP" { LowersTo(t, "tcp"); }
    else { LowersTo(t, "udp"); }
  }

  lemma CanonicalTypesAreFixed(t: string)
    requires t in ENDPOINT_TYPES
    ensures TypeAlias(AsciiLower(t)) == Some(t)
  {
    hide AsciiLower, TypeAlias;
    if t in {"Web", "REST API", "MCP", "HEC"} {
      WebTypesAreFixed(t);
    } else if t in {"SSH", "SMB", "Database", "S2S"} {
      ServiceTypesAreFixed(t);
    } else if t in {"Metrics", "Webhook", "HTTP"} {
      RequestTypesAreFixed(t);
    } else {
      TransportTypesAreFixed(t);
    }
  }

  lemma CustomTypesAreFixed(t: string)
    requires IsCustomType(t)
    ensures IsAscii(t) && Strip(t) == t && AsciiLower(t) == t && TypeAlias(t) == None
  {
    NoOuterSpace(t);
    forall i | 0 <= i < |t| ensures AsciiLowerChar(t[i]) == t[i] && t[i] < 128 as char {
    }
  }

  lemma AliasIsCanonical(folded: string)
    ensures TypeAlias(folded).Some? ==> TypeAlias(folded).value in ENDPOINT_TYPES
  {
  }

  lemma TypeIsFixed(value: Json, protocol: Option<string>, rt: Runtime, t: string, hint: Option<string>)
    requires rt.Lawful() && NormalizeType(value, protocol, rt) == Ok(t)
    ensures NormalizeType(JText(t), hint, rt) == Ok(t)
  {
    hide TypeAlias, IsCustomType, Strip;
    AliasIsCanonical(rt.casefold(if protocol.Some? then protocol.value else ""));
    if value.JText? {
      AliasIsCanonical(rt.casefold(Strip(value.text)));
    }
    assert t in ENDPOINT_TYPES || IsCustomType(t);
    if t in ENDPOINT_TYPES {
      CanonicalTypesAreText(t);
      CanonicalTypesAreAscii(t);
      CanonicalTypesAreFixed(t);
    } else {
      CustomTypesAreFixed(t);
      CustomIsNotEmpty(t);
    }
  }

  lemma CustomIsNotEmpty(t: string)
    requires IsCustomType(t)
    ensures t != ""
  {
  }

  lemma AccessTypesAreFixed(t: string)
    requires t in ACCESS_TYPES
    ensures IsAscii(t) && Strip(t) == t && t != "" && AsciiLower(t) == t && AccessAlias(t) == t
  {
    NoOuterSpace(t);
    forall i | 0 <= i < |t| ensures AsciiLowerChar(t[i]) == t[i] && t[i] < 128 as char {
    }
  }

  lemma AccessTypeIsFixed(value: Json, rt: Runtime, t: string)
    requires rt.Lawful() && NormalizeAccessType(value, rt) == Ok(t)
    ensures NormalizeAccessType(JText(t), rt) == Ok(t)
  {
    hide Strip, AccessAlias;
    assert t in ACCESS_TYPES by {
      assert "other" in ACCESS_TYPES;
    }
    AccessTypesAreFixed(t);
  }

  lemma ProtocolsAreLower(p: string, rt: Runtime)
    requires rt.Lawful() && IsProtocol(p)
    ensures rt.lower(p) == p
  {
    forall i | 0 <= i < |p| ensures AsciiLowerChar(p[i]) == p[i] && p[i] < 128 as char {
      assert p[i] in p;
    }
    assert AsciiLower(p) == p;
  }

  // One field after another, on the second pass.

  lemma UrlAgain(raw: Endpoint, f: Facts, id: string, rt: Runtime)
    requires FactsOf(raw, rt) == Ok(f)
    ensures OptionalText(Get(Write(raw, f, id).url)) == Ok(f.url)
    ensures OptionalText(Get(raw.url)) == Ok(f.url) && ParseUrl(f.url, rt).Ok?
    ensures f.url.Some? ==> f.url.value != "" && Strip(f.url.value) == f.url.value
  {
    hide ParseUrl, HostOf, NormalizeType, TransportOf, ProtocolOf, PortOf, PathOf, ExposureOf, Strip;
    if f.url.Some? {
      StripAgain(raw.url.value.text);
    }
  }

  /** The host found by the second pass is the trimmed host of the first. */
  lemma HostAgain(raw: Endpoint, f: Facts, id: string, rt: Runtime, parsed: Option<Url>)
    requires FactsOf(raw, rt) == Ok(f) && ParseUrl(f.url, rt) == Ok(parsed)
    ensures var own := OptionalText(Get(Write(raw, f, id).host));
            if HostHazard(raw, parsed) then f.host.Some? && own != Ok(f.host) && (own.Ok? ==> own.value.Some?)
            else own == Ok(f.host)
    ensures f.host.None? ==> HostOf(None, f.url, parsed).None?
  {
    hide ParseUrl, NormalizeType, TransportOf, ProtocolOf, PortOf, PathOf, ExposureOf, Strip;
    UrlAgain(raw, f, id, rt);
    if raw.host.Some? && raw.host.value.JText? {
      StripAgain(raw.host.value.text);
    }
  }

  lemma ProtocolAgain(protocol: Json, urlProtocol: Option<string>, kind: string, rt: Runtime, p: string)
    requires rt.Lawful() && ProtocolOf(protocol, urlProtocol, kind, rt) == Ok(p)
    ensures ProtocolOf(JText(p), urlProtocol, kind, rt) == Ok(p) <==>
            !(urlProtocol.None? && protocol.JText? && !IsTransport(protocol) && IsTransport(JText(rt.lower(protocol.text)))
              && TypeProtocol(kind) != Some(rt.lower(protocol.text)))
  {
    hide TypeProtocol, IsProtocol;
    ProtocolsAreLower(p, rt);
    TransportsAreProtocols();
    NoEmptyProtocol();
  }

  lemma NoEmptyProtocol()
    ensures !IsProtocol("")
  {
  }

  lemma TransportsAreProtocols()
    ensures IsProtocol("tcp") && IsProtocol("udp")
  {
  }

  lemma PortAgain(port: Json, parsed: Option<Url>, protocol: string, p: Option<int>)
    requires PortOf(port, parsed, protocol) == Ok(p)
    ensures PortOf(if p.Some? then JInt(p.value) else JNull, parsed, protocol) == Ok(p)
    ensures p.None? ==> port == JNull
  {
  }

  lemma PathAgain(raw: Endpoint, parsed: Option<Url>, path: Option<string>)
    requires PathOf(Get(raw.path), parsed) == Ok(path)
    ensures PathOf(if path.Some? then JText(path.value) else JNull, parsed) == Ok(path) <==> !EmptyPathHazard(raw, parsed)
    ensures EmptyPathHazard(raw, parsed) ==> path.None?
  {
    hide Strip;
    BlankEmpty();
  }

  lemma BlankEmpty()
    ensures IsBlank("")
  {
  }

  lemma ExposureAgain(exposure: Option<Json>, e: string)
    requires ExposureOf(exposure) == Ok(e)
    ensures ExposureOf(Some(JText(e))) == Ok(e)
  {
  }

  lemma TransportAgain(transport: Json, protocol: Json, urlProtocol: Option<string>, kind: string, t: string,
                       protocol': Json)
    requires TransportOf(transport, protocol, urlProtocol, kind) == Ok(t)
    ensures TransportOf(JText(t), protocol', urlProtocol, kind) == Ok(t)
  {
  }

  function Hint(urlProtocol: Option<string>, protocol: Json): Option<string> {
    if urlProtocol.Some? then urlProtocol else if protocol.JText? then Some(protocol.text) else None
  }

  /** The checks of one endpoint, field by field. */
  ghost predicate Agrees(e: Endpoint, f: Facts, own: Option<string>, parsed: Option<Url>, rt: Runtime) {
    var urlProtocol := UrlProtocol(parsed, rt);
    && OptionalText(Get(e.url)) == Ok(f.url) && OptionalText(Get(e.host)) == Ok(own) && ParseUrl(f.url, rt) == Ok(parsed)
    && HostOf(own, f.url, parsed) == f.host && (f.host.Some? || f.url.Some?)
    && NormalizeType(Get(e.kind), Hint(urlProtocol, Get(e.protocol)), rt) == Ok(f.kind)
    && TransportOf(Get(e.transport), Get(e.protocol), urlProtocol, f.kind) == Ok(f.transport)
    && ProtocolOf(Get(e.protocol), urlProtocol, f.kind, rt) == Ok(f.protocol)
    && PortOf(Get(e.port), parsed, f.protocol) == Ok(f.port)
    && PathOf(Get(e.path), parsed) == Ok(f.path)
    && ExposureOf(e.exposure) == Ok(f.exposure)
  }

  lemma FactsAgree(e: Endpoint, f: Facts, rt: Runtime)
    ensures FactsOf(e, rt) == Ok(f) <==>
            exists own, parsed :: Agrees(e, f, own, parsed, rt)
  {
    hide ParseUrl, NormalizeType, TransportOf, ProtocolOf, PortOf, PathOf, ExposureOf, UrlProtocol, HostOf, OptionalText;
    if FactsOf(e, rt) == Ok(f) {
      assert Agrees(e, f, OptionalText(Get(e.host)).value, ParseUrl(f.url, rt).value, rt);
    }
  }

  /** What the second pass finds in a normalized endpoint. */
  lemma FactsAgain(raw: Endpoint, f: Facts, id: string, rt: Runtime)
    requires rt.Lawful() && FactsOf(raw, rt) == Ok(f)
    ensures Hazard(raw, f, rt) <==> FactsOf(Write(raw, f, id), rt) != Ok(f)
  {
    hide ParseUrl, NormalizeType, TransportOf, ProtocolOf, PortOf, PathOf, ExposureOf, Strip, UrlProtocol, HostOf,
         OptionalText, EmptyPathHazard, HostHazard, UrlHasPath, FactsOf;
    var n := Write(raw, f, id);
    FactsAgree(raw, f, rt);
    FactsAgree(n, f, rt);
    UrlAgain(raw, f, id, rt);
    var parsed := ParseUrl(f.url, rt).value;
    var urlProtocol := UrlProtocol(parsed, rt);
    var protocol := Get(raw.protocol);
    HostAgain(raw, f, id, rt, parsed);
    var own := OptionalText(Get(n.host));
    if own.Ok? {
      HostStated(own.value, f.url, parsed);
    }
    TypeIsFixed(Get(raw.kind), Hint(urlProtocol, protocol), rt, f.kind, Hint(urlProtocol, Get(n.protocol)));
    TransportAgain(Get(raw.transport), protocol, urlProtocol, f.kind, f.transport, Get(n.protocol));
    ProtocolAgain(protocol, urlProtocol, f.kind, rt, f.protocol);
    PortAgain(Get(raw.port), parsed, f.protocol, f.port);
    PathAgain(raw, parsed, f.path);
    ExposureAgain(raw.exposure, f.exposure);
    if !Hazard(raw, f, rt) {
      assert Agrees(n, f, own.value, parsed, rt);
    }
  }

  lemma HostStated(host: Option<string>, url: Option<string>, parsed: Option<Url>)
    ensures host.Some? ==> HostOf(host, url, parsed) == host
  {
  }

  lemma IdentifierIsText(id: string)
    requires IsIdentifier(id)
    ensures RequireText(JText(id)) == Ok(id)
  {
    assert id[|id| - 1] in id;
    NoOuterSpace(id);
  }

  /** Whatever the id's origin, a second pass keeps it while it is free. */
  lemma IdAgain(id: string, kind: string, port: Option<int>, host: Option<string>, used: set<string>, rt: Runtime)
    requires IsIdentifier(id)
    ensures IdOf(JText(id), kind, port, host, used, rt) == (if id in used then Err(InterfaceError) else Ok(id))
  {
    hide UniqueIdentifier;
    IdentifierIsText(id);
  }

  lemma NormalizedParts(raw: Endpoint, used: set<string>, rt: Runtime, e: Endpoint) returns (f: Facts, id: string)
    requires NormalizeEndpoint(raw, used, rt) == Ok(e)
    ensures FactsOf(raw, rt) == Ok(f) && e == Write(raw, f, id) && e.id == Some(JText(id)) && IsIdentifier(id) && id !in used
    ensures raw.healthUrl.Some? ==> RequireText(raw.healthUrl.value).Ok?
  {
    hide FactsOf, IdOf;
    f := FactsOf(raw, rt).value;
    id := IdOf(Get(raw.id), f.kind, f.port, f.host, used, rt).value;
  }

  /** Writing the same facts again changes nothing, and other facts show in the document. */
  lemma WriteAgain(raw: Endpoint, f: Facts, id: string)
    ensures Write(Write(raw, f, id), f, id) == Write(raw, f, id)
  {
  }

  lemma WriteShowsFacts(raw: Endpoint, f: Facts, id: string, g: Facts, rt: Runtime)
    requires FactsOf(raw, rt) == Ok(f) && FactsOf(Write(raw, f, id), rt) == Ok(g)
    requires Write(Write(raw, f, id), g, id) == Write(raw, f, id)
    ensures g == f
  {
    hide ParseUrl, NormalizeType, TransportOf, ProtocolOf, ExposureOf, Strip, UrlProtocol, FactsOf, HostOf;
    FactsAgree(raw, f, rt);
    FactsAgree(Write(raw, f, id), g, rt);
    var own, parsed :| Agrees(raw, f, own, parsed, rt);
    var own', parsed' :| Agrees(Write(raw, f, id), g, own', parsed', rt);
    UrlAgain(raw, f, id, rt);
    HostAgain(raw, f, id, rt, parsed);
    if f.host.Some? {
      HostStated(own', g.url, parsed');
    }
  }

  /** The second pass leaves an endpoint as it is exactly when none of the three hazards applied to
      the document it was made from. */
  lemma EndpointFixedIff(raw: Endpoint, used: set<string>, rt: Runtime, e: Endpoint, f: Facts, used': set<string>)
    requires rt.Lawful() && FactsOf(raw, rt) == Ok(f) && NormalizeEndpoint(raw, used, rt) == Ok(e)
    requires Get(e.id).JText? && Get(e.id).text !in used'
    ensures NormalizeEndpoint(e, used', rt) == Ok(e) <==> !Hazard(raw, f, rt)
  {
    hide FactsOf, IdOf, Hazard, IsIdentifier;
    var f', id := NormalizedParts(raw, used, rt, e);
    FactsAgain(raw, f, id, rt);
    WriteAgain(raw, f, id);
    if FactsOf(e, rt).Ok? {
      var g := FactsOf(e, rt).value;
      IdAgain(id, g.kind, g.port, g.host, used', rt);
      assert NormalizeEndpoint(e, used', rt) == Ok(Write(e, g, id));
      if Write(e, g, id) == e {
        WriteShowsFacts(raw, f, id, g, rt);
      }
    }
  }
}
