/** When a second pass of `normalize_interface_data` accepts what the first one wrote. */
module InterfaceAcceptance {
  import opened JsonValues
  import opened Wrappers
  import opened Texts
  import opened Interfaces
  import opened InterfaceFacts
  import opened InterfaceDocuments
  import opened InterfaceCanonical
  import opened InterfaceSecondPass
  import opened InterfaceTheorems
  import opened InterfaceStability

  // One endpoint.

  /** The host taken from the URL is nothing but white space. */
  predicate BlankHost(raw: Endpoint, parsed: Option<Url>) {
    HostHazard(raw, parsed) && IsBlank(parsed.value.hostname)
  }

  /** What makes the normalized document be rejected: a blank host, a protocol that is taken for a
      transport beside a type without a default protocol, or a blank URL path that takes the place of an
      explicit empty one. */
  predicate IsFatal(raw: Endpoint, f: Facts, rt: Runtime) {
    var parsed := ParseUrl(f.url, rt);
    parsed.Ok?
    && (BlankHost(raw, parsed.value)
        || (ProtocolHazard(raw, parsed.value, f.kind, rt) && TypeProtocol(f.kind).None?)
        || (EmptyPathHazard(raw, parsed.value) && IsBlank(parsed.value.value.path)))
  }

  lemma FatalIsHazard(raw: Endpoint, f: Facts, rt: Runtime)
    ensures IsFatal(raw, f, rt) ==> Hazard(raw, f, rt)
  {
  }

  lemma HostReadAgain(raw: Endpoint, f: Facts, id: string, rt: Runtime, parsed: Option<Url>)
    requires FactsOf(raw, rt) == Ok(f) && ParseUrl(f.url, rt) == Ok(parsed)
    ensures OptionalText(Get(Write(raw, f, id).host)).Ok? <==> !BlankHost(raw, parsed)
  {
    hide ParseUrl, NormalizeType, TransportOf, ProtocolOf, PortOf, PathOf, ExposureOf, Strip, IsBlank;
    HostAgain(raw, f, id, rt, parsed);
    StripsBlankToEmpty();
  }

  lemma StripsBlankToEmpty()
    ensures forall s :: IsBlank(s) <==> Strip(s) == ""
  {
  }

  lemma ProtocolReadAgain(protocol: Json, urlProtocol: Option<string>, kind: string, rt: Runtime, p: string)
    requires rt.Lawful() && ProtocolOf(protocol, urlProtocol, kind, rt) == Ok(p)
    ensures ProtocolOf(JText(p), urlProtocol, kind, rt).Ok? <==>
            !(urlProtocol.None? && protocol.JText? && !IsTransport(protocol) && IsTransport(JText(rt.lower(protocol.text)))
              && TypeProtocol(kind).None?)
  {
    hide IsProtocol;
    ProtocolsAreLower(p, rt);
    TransportsAreProtocols();
    NoEmptyProtocol();
    TypeProtocolsAreProtocols(kind);
  }

  lemma TypeProtocolsAreProtocols(kind: string)
    ensures TypeProtocol(kind).Some? ==> IsProtocol(TypeProtocol(kind).value)
  {
  }

  lemma PortReadAgain(port: Json, parsed: Option<Url>, protocol: string, p: Option<int>, protocol': string)
    requires PortOf(port, parsed, protocol) == Ok(p)
    ensures PortOf(if p.Some? then JInt(p.value) else JNull, parsed, protocol').Ok?
  {
  }

  lemma PathReadAgain(raw: Endpoint, parsed: Option<Url>, path: Option<string>)
    requires PathOf(Get(raw.path), parsed) == Ok(path)
    ensures PathOf(if path.Some? then JText(path.value) else JNull, parsed).Ok? <==>
            !(EmptyPathHazard(raw, parsed) && IsBlank(parsed.value.path))
  {
    hide Strip;
    BlankEmpty();
  }

  /** The checks of one endpoint that can fail, one after the other. */
  lemma FactsOkIff(e: Endpoint, rt: Runtime, url: Option<string>, own: Option<string>, parsed: Option<Url>, kind: string)
    requires OptionalText(Get(e.url)) == Ok(url) && OptionalText(Get(e.host)) == Ok(own) && ParseUrl(url, rt) == Ok(parsed)
    requires HostOf(own, url, parsed).Some? || url.Some?
    requires NormalizeType(Get(e.kind), Hint(UrlProtocol(parsed, rt), Get(e.protocol)), rt) == Ok(kind)
    requires TransportOf(Get(e.transport), Get(e.protocol), UrlProtocol(parsed, rt), kind).Ok?
    requires forall p :: PortOf(Get(e.port), parsed, p).Ok?
    requires ExposureOf(e.exposure).Ok?
    ensures FactsOf(e, rt).Ok? <==>
            ProtocolOf(Get(e.protocol), UrlProtocol(parsed, rt), kind, rt).Ok? && PathOf(Get(e.path), parsed).Ok?
  {
    hide ParseUrl, NormalizeType, TransportOf, ProtocolOf, PortOf, PathOf, ExposureOf, UrlProtocol, HostOf, OptionalText;
  }

  lemma HostErrs(e: Endpoint, rt: Runtime)
    requires OptionalText(Get(e.host)).Err?
    ensures FactsOf(e, rt).Err?
  {
    hide ParseUrl, NormalizeType, TransportOf, ProtocolOf, PortOf, PathOf, ExposureOf, UrlProtocol, HostOf, OptionalText;
  }

  /** The facts of a normalized endpoint can be read again exactly when nothing fatal applied to its
      source. */
  lemma FactsReadAgain(raw: Endpoint, f: Facts, id: string, rt: Runtime)
    requires rt.Lawful() && FactsOf(raw, rt) == Ok(f)
    ensures FactsOf(Write(raw, f, id), rt).Ok? <==> !IsFatal(raw, f, rt)
  {
    hide ParseUrl, NormalizeType, TransportOf, ProtocolOf, PortOf, PathOf, ExposureOf, Strip, UrlProtocol, HostOf, IsBlank,
         OptionalText, EmptyPathHazard, HostHazard, UrlHasPath, FactsOf, TypeProtocol;
    var n := Write(raw, f, id);
    FactsAgree(raw, f, rt);
    UrlAgain(raw, f, id, rt);
    var parsed := ParseUrl(f.url, rt).value;
    var urlProtocol := UrlProtocol(parsed, rt);
    var protocol := Get(raw.protocol);
    HostReadAgain(raw, f, id, rt, parsed);
    HostAgain(raw, f, id, rt, parsed);
    TypeIsFixed(Get(raw.kind), Hint(urlProtocol, protocol), rt, f.kind, Hint(urlProtocol, Get(n.protocol)));
    TransportAgain(Get(raw.transport), protocol, urlProtocol, f.kind, f.transport, Get(n.protocol));
    ProtocolReadAgain(protocol, urlProtocol, f.kind, rt, f.protocol);
    forall p ensures PortOf(Get(n.port), parsed, p).Ok? {
      InterfaceFacts.PortAgain(Get(raw.port), parsed, f.protocol, f.port);
      PortReadAgain(Get(raw.port), parsed, f.protocol, f.port, p);
    }
    PathReadAgain(raw, parsed, f.path);
    ExposureAgain(raw.exposure, f.exposure);
    if OptionalText(Get(n.host)).Ok? {
      var own := OptionalText(Get(n.host)).value;
      HostStated(own, f.url, parsed);
      FactsOkIff(n, rt, f.url, own, parsed, f.kind);
    } else {
      HostErrs(n, rt);
    }
  }

  /** Another pass accepts the endpoint. */
  predicate AcceptsAgain(e: Endpoint, rt: Runtime) {
    NormalizeEndpoint(e, {}, rt).Ok?
  }

  predicate NotFatal(raw: Endpoint, rt: Runtime) {
    FactsOf(raw, rt).Ok? ==> !IsFatal(raw, FactsOf(raw, rt).value, rt)
  }

  lemma AcceptedAgainIff(raw: Endpoint, used: set<string>, rt: Runtime, e: Endpoint)
    requires rt.Lawful() && NormalizeEndpoint(raw, used, rt) == Ok(e)
    ensures AcceptsAgain(e, rt) <==> NotFatal(raw, rt)
  {
    hide FactsOf, IdOf, IsFatal, IsIdentifier, RequireText;
    var f, id := NormalizedParts(raw, used, rt, e);
    FactsReadAgain(raw, f, id, rt);
    if FactsOf(e, rt).Ok? {
      var g := FactsOf(e, rt).value;
      IdAgain(id, g.kind, g.port, g.host, {}, rt);
    }
  }

  /** The URL gives a host of nothing but white space. */
  predicate GivesBlankHost(url: string, rt: Runtime) {
    var parsed := ParseUrl(Some(url), rt);
    parsed.Ok? && parsed.value.Some? && parsed.value.value.hostname != "" && IsBlank(parsed.value.value.hostname)
  }

  lemma PromotionAcceptedAgainIff(raw: Access, text: string, used: set<string>, rt: Runtime, e: Endpoint)
    requires rt.Lawful() && !IsBlank(text) && NormalizeEndpoint(Promotion(raw, text, rt), used, rt) == Ok(e)
    ensures AcceptsAgain(e, rt) <==> !GivesBlankHost(Strip(text), rt)
  {
    hide FactsOf, IdOf, IsIdentifier, EndpointTypeFor, UrlHasPath, UrlProtocol, ParseUrl, NormalizeEndpoint, Strip, IsBlank;
    var p := Promotion(raw, text, rt);
    AcceptedAgainIff(p, used, rt, e);
    var f, id := NormalizedParts(p, used, rt, e);
    UrlAgain(p, f, id, rt);
    assert f.url == Some(Strip(text));
    StripsBlankToEmpty();
  }

  // The endpoints of a second pass.

  ghost predicate AllAccept(s: seq<Endpoint>, rt: Runtime) {
    forall e | e in s :: AcceptsAgain(e, rt)
  }

  /** Another list of endpoints with the same ids and URLs. */
  ghost predicate Mirrors(d: seq<Endpoint>, s: seq<Endpoint>) {
    |d| == |s| && forall i | 0 <= i < |s| :: IdText(d[i]) == IdText(s[i]) && Fingerprint(d[i]) == Fingerprint(s[i])
  }

  lemma EndpointAccepts(s: seq<Endpoint>, front: seq<Endpoint>, last: Endpoint, reg: Registry, rt: Runtime)
    requires DistinctList(s) && s == front + [last] && OutputEndpoint(last) && KeysOf(reg, front) && Mirrors(reg.endpoints, front)
    ensures var r := AddEndpoint(reg, Doc(last), rt);
            (r.Ok? <==> AcceptsAgain(last, rt)) && (r.Ok? ==> Mirrors(r.value.endpoints, s))
  {
    hide NormalizeEndpoint, OutputEndpoint, Fingerprint, IdText, KeysOf, DistinctList;
    assert s[..|front|] == front && s[|front|] == last;
    FreshInPrefix(s, |front|, reg);
    UsedIdsDoNotMatter(last, reg.ids, rt);
    if NormalizeEndpoint(last, reg.ids, rt).Ok? {
      EndpointAgainShape(last, reg.ids, rt, NormalizeEndpoint(last, reg.ids, rt).value);
    }
  }

  lemma AcceptSplits(s: seq<Endpoint>, front: seq<Endpoint>, last: Endpoint, rt: Runtime)
    requires s == front + [last]
    ensures AllAccept(s, rt) <==> AllAccept(front, rt) && AcceptsAgain(last, rt)
  {
    hide AcceptsAgain;
    assert forall e :: e in s <==> e in front || e == last;
  }

  /** A second pass accepts the endpoints exactly when each is accepted by itself, and keeps ids and URLs. */
  lemma {:induction false} SecondEndpointsAccept(s: seq<Endpoint>, rt: Runtime)
    requires DistinctList(s)
    ensures var r := AddEndpoints(Docs(s), rt); (r.Ok? <==> AllAccept(s, rt)) && (r.Ok? ==> Mirrors(r.value.endpoints, s))
  {
    hide AddEndpoint, OutputEndpoint, KeysOf, DistinctList, AcceptsAgain, AllAccept, Mirrors, AllFixed, IsFixed, RegistryOf;
    if s == [] {
      NoMirrors(rt);
    } else {
      var front, last := s[..|s| - 1], s[|s| - 1];
      EndpointListSplits(s, front, last, rt);
      DocsPrefix(s);
      SecondEndpointsAccept(front, rt);
      SecondEndpoints(front, rt);
      AcceptSplits(s, front, last, rt);
      if AddEndpoints(Docs(front), rt).Ok? {
        EndpointAccepts(s, front, last, AddEndpoints(Docs(front), rt).value, rt);
      }
    }
  }

  lemma NoMirrors(rt: Runtime)
    ensures Mirrors([], []) && AllAccept([], rt) && EMPTY.endpoints == []
  {
  }

  // The methods of a second pass.

  /** The text under which a second pass looks up a method's endpoint. */
  function UrlText(m: Access): string {
    if Get(m.endpoint).JText? then Get(m.endpoint).text else ""
  }

  /** The canonical registry `reg` seen again: its endpoints with their ids and URLs, and new ones for the
      URLs in `more`. */
  ghost predicate SeenAgain(r: Registry, again: seq<Endpoint>, reg: Registry, more: set<string>) {
    && Sound(r) && Sound(reg) && Mirrors(again, reg.endpoints) && again <= r.endpoints
    && forall u :: u in r.byUrl <==> u in reg.byUrl || u in more
  }

  /** The endpoint that stands for `e` in the second pass. */
  lemma MirrorOf(r: Registry, again: seq<Endpoint>, reg: Registry, more: set<string>, e: Endpoint) returns (d: Endpoint)
    requires SeenAgain(r, again, reg, more) && e in reg.endpoints
    ensures d in r.endpoints && d.id == e.id && IdText(d) == IdText(e) && Fingerprint(d) == Fingerprint(e)
    ensures OutputEndpoint(d) && OutputEndpoint(e)
  {
    hide OutputEndpoint, Fingerprint, RegistryOf;
    var i :| 0 <= i < |reg.endpoints| && reg.endpoints[i] == e;
    d := again[i];
    assert d == r.endpoints[i];
    HasId(d);
    HasId(e);
  }

  /** Two endpoints of a registry with one id are one. */
  lemma SameIdText(r: Registry, d: Endpoint, e: Endpoint)
    requires Sound(r) && d in r.endpoints && e in r.endpoints && IdText(d) == IdText(e)
    ensures d == e
  {
    hide OutputEndpoint, Fingerprint, RegistryOf;
    HasId(d);
    HasId(e);
    SameIdSameEndpoint(r, d, e);
  }

  lemma KnownLink(r: Registry, m: Access, d: Endpoint, text: string, allowLegacy: bool, rt: Runtime)
    requires m.endpoint == Some(JText(text)) && !IsBlank(text) && Strip(text) in r.byUrl && r.byUrl[Strip(text)] == d
    requires Get(m.endpointId) == JText(IdText(d))
    ensures LinkOf(r, m, allowLegacy, rt) == Ok(Link(r, Some(text), Get(m.endpointId), false))
  {
    hide Strip, IsBlank, NormalizeEndpoint, IdText;
  }

  lemma NullLink(r: Registry, m: Access, allowLegacy: bool, rt: Runtime)
    requires Get(m.endpoint) == JNull && Get(m.endpointId) == JNull
    ensures LinkOf(r, m, allowLegacy, rt) == Ok(Link(r, None, JNull, false))
  {
    hide NormalizeEndpoint;
  }

  /** The endpoint a well-named method names, and its URL. */
  lemma NamedEndpoint(reg: Registry, m: Access) returns (e: Endpoint, text: string)
    requires Sound(reg) && OutputAccess(m, reg) && WellNamed(m, reg.endpoints) && Get(m.endpointId) != JNull
    ensures e in reg.endpoints && m.endpointId == e.id && m.endpoint == Some(JText(text)) && !IsBlank(text)
    ensures Fingerprint(e) == Some(Strip(text)) && Strip(text) in reg.byUrl && OutputEndpoint(e)
  {
    hide IsIdentifier, Strip, IsBlank, CredentialsValid, EndpointUrl, RegistryOf, OutputEndpoint, Fingerprint;
    e :| e in reg.endpoints && Names(m, e, reg);
    var c :| c in reg.endpoints && c.id == m.endpointId && Carries(c);
    SameIdSameEndpoint(reg, c, e);
    text := m.endpoint.value.text;
  }

  lemma IndexedByUrl(r: Registry, d: Endpoint, u: string)
    requires Sound(r) && d in r.endpoints && Fingerprint(d) == Some(u)
    ensures u in r.byUrl && r.byUrl[u] == d
  {
    hide RegistryOf, OutputEndpoint, Fingerprint, IdText;
  }

  /** A well-named method finds its endpoint again. */
  lemma NamedLinkAgain(r: Registry, again: seq<Endpoint>, reg: Registry, more: set<string>, m: Access, allowLegacy: bool, rt: Runtime)
    requires SeenAgain(r, again, reg, more) && OutputAccess(m, reg) && WellNamed(m, reg.endpoints)
    ensures LinkOf(r, m, allowLegacy, rt).Ok? && LinkOf(r, m, allowLegacy, rt).value.registry == r
    ensures LinkOf(r, m, allowLegacy, rt).value.endpointId == Get(m.endpointId)
    ensures Get(m.endpointId) != JNull ==> exists d :: d in r.endpoints && d.id == Some(Get(m.endpointId))
  {
    hide LinkOf, Strip, IsBlank, OutputEndpoint, OutputAccess, WellNamed, Fingerprint, SeenAgain, Sound;
    SeenIsSound(r, again, reg, more);
    if Get(m.endpointId) == JNull {
      NamesNothing(m, reg);
      NullLink(r, m, allowLegacy, rt);
    } else {
      var e, text := NamedEndpoint(reg, m);
      var d := MirrorOf(r, again, reg, more, e);
      IndexedByUrl(r, d, Strip(text));
      HasId(d);
      KnownLink(r, m, d, text, allowLegacy, rt);
    }
  }

  lemma SeenIsSound(r: Registry, again: seq<Endpoint>, reg: Registry, more: set<string>)
    requires SeenAgain(r, again, reg, more)
    ensures Sound(r) && Sound(reg)
  {
  }

  lemma NamesNothing(m: Access, reg: Registry)
    requires OutputAccess(m, reg) && Get(m.endpointId) == JNull
    ensures Get(m.endpoint) == JNull
  {
  }

  /** A method that names an endpoint without a URL is rejected when its URL has an endpoint, and else
      promoted if its promotion can be read. */
  lemma UnnamedLinkAgain(r: Registry, again: seq<Endpoint>, reg: Registry, more: set<string>, m: Access, allowLegacy: bool, rt: Runtime)
    requires SeenAgain(r, again, reg, more) && OutputAccess(m, reg) && !WellNamed(m, reg.endpoints)
    ensures var u := Strip(UrlText(m));
            LinkOf(r, m, allowLegacy, rt).Ok? <==> u !in r.byUrl && FactsOf(Promotion(m, UrlText(m), rt), rt).Ok?
    ensures var link := LinkOf(r, m, allowLegacy, rt);
            link.Ok? ==> && link.value.endpointId != JNull && link.value.endpointId.JText?
                         && exists d :: d in link.value.registry.endpoints && d.id == Some(link.value.endpointId)
    ensures !IsBlank(UrlText(m)) && GivenUrl(m, allowLegacy) == Some(Strip(UrlText(m)))
  {
    hide IsIdentifier, Strip, IsBlank, CredentialsValid, EndpointUrl, RegistryOf, OutputEndpoint, Fingerprint, NormalizeEndpoint, Mirrors,
         Promotion, FactsOf;
    var e :| e in reg.endpoints && Names(m, e, reg);
    assert !Carries(e);
    var text := m.endpoint.value.text;
    var u := Strip(text);
    var d := MirrorOf(r, again, reg, more, e);
    NoUrlNoFingerprint(e);
    if u in r.byUrl {
      var known := r.byUrl[u];
      if IdText(known) == IdText(e) {
        SameIdText(r, known, d);
      }
      HasId(e);
    } else {
      PromotionIsRead(m, text, r.ids, rt);
      if NormalizeEndpoint(Promotion(m, text, rt), r.ids, rt).Ok? {
        var p := NormalizeEndpoint(Promotion(m, text, rt), r.ids, rt).value;
        NormalizedIsOutput(Promotion(m, text, rt), r.ids, rt, p);
        HasId(p);
      }
    }
  }

  lemma NoUrlNoFingerprint(e: Endpoint)
    ensures !Carries(e) ==> Fingerprint(e) == None
  {
  }

  /** A promotion is accepted when its fields are: its id is invented. */
  lemma PromotionIsRead(m: Access, text: string, used: set<string>, rt: Runtime)
    ensures NormalizeEndpoint(Promotion(m, text, rt), used, rt).Ok? <==> FactsOf(Promotion(m, text, rt), rt).Ok?
  {
    hide FactsOf, EndpointTypeFor, UniqueIdentifier, Slug, Decimal;
  }

  /** The URLs of the methods that name an endpoint without one. */
  ghost function NewUrls(s: seq<Access>, endpoints: seq<Endpoint>): set<string> {
    set m | m in s && !WellNamed(m, endpoints) :: Strip(UrlText(m))
  }

  ghost predicate TurnAccepts(m: Access, reg: Registry, more: set<string>, rt: Runtime) {
    !WellNamed(m, reg.endpoints) ==>
      && Strip(UrlText(m)) !in reg.byUrl && Strip(UrlText(m)) !in more
      && FactsOf(Promotion(m, UrlText(m), rt), rt).Ok?
  }

  /** Each method that names an endpoint without a URL has a URL that is new at its turn, and whose
      promotion can be read. */
  ghost predicate TurnsAccept(reg: Registry, s: seq<Access>, rt: Runtime) {
    forall i | 0 <= i < |s| :: TurnAccepts(s[i], reg, NewUrls(s[..i], reg.endpoints), rt)
  }

  lemma NewUrlsSnoc(front: seq<Access>, last: Access, endpoints: seq<Endpoint>)
    ensures NewUrls(front + [last], endpoints)
            == NewUrls(front, endpoints) + if WellNamed(last, endpoints) then {} else {Strip(UrlText(last))}
  {
    hide WellNamed, Strip;
    assert forall m :: m in front + [last] <==> m in front || m == last;
  }

  lemma TurnsAcceptSnoc(reg: Registry, front: seq<Access>, last: Access, rt: Runtime)
    ensures TurnsAccept(reg, front + [last], rt) <==>
            TurnsAccept(reg, front, rt) && TurnAccepts(last, reg, NewUrls(front, reg.endpoints), rt)
  {
    hide TurnAccepts, NewUrls;
    var s := front + [last];
    assert s[..|front|] == front && s[|front|] == last;
    assert forall i | 0 <= i < |front| :: s[i] == front[i] && s[..i] == front[..i];
  }

  lemma SeenAgainGrows(r: Registry, again: seq<Endpoint>, reg: Registry, more: set<string>, m: Access, allowLegacy: bool, rt: Runtime)
    requires SeenAgain(r, again, reg, more) && OutputAccess(m, reg) && LinkOf(r, m, allowLegacy, rt).Ok?
    ensures SeenAgain(LinkOf(r, m, allowLegacy, rt).value.registry, again, reg,
                      more + if WellNamed(m, reg.endpoints) then {} else {Strip(UrlText(m))})
  {
    hide LinkOf, OutputAccess, WellNamed, Sound, Mirrors, GivenUrl, Strip;
    var link := LinkOf(r, m, allowLegacy, rt).value;
    if WellNamed(m, reg.endpoints) {
      NamedLinkAgain(r, again, reg, more, m, allowLegacy, rt);
      assert more + {} == more;
    } else {
      UnnamedLinkAgain(r, again, reg, more, m, allowLegacy, rt);
      LinkSound(r, m, allowLegacy, rt, link);
      LinkIndex(r, m, allowLegacy, rt, link);
    }
  }

  lemma LinkAgainIff(r: Registry, again: seq<Endpoint>, reg: Registry, more: set<string>, m: Access, allowLegacy: bool, rt: Runtime)
    requires SeenAgain(r, again, reg, more) && OutputAccess(m, reg)
    ensures var link := LinkOf(r, m, allowLegacy, rt);
            && (link.Ok? <==> TurnAccepts(m, reg, more, rt))
            && (link.Ok? && link.value.endpointId != JNull ==> FindById(link.value.registry.endpoints, link.value.endpointId).Some?)
  {
    hide LinkOf, OutputAccess, WellNamed, Sound, Mirrors, GivenUrl, Strip, FactsOf, Promotion, FindById;
    if WellNamed(m, reg.endpoints) {
      NamedLinkAgain(r, again, reg, more, m, allowLegacy, rt);
    } else {
      UnnamedLinkAgain(r, again, reg, more, m, allowLegacy, rt);
    }
    if LinkOf(r, m, allowLegacy, rt).Ok? {
      var link := LinkOf(r, m, allowLegacy, rt).value;
      FindByIdFinds(link.registry.endpoints, link.endpointId);
    }
  }

  lemma AccessFields(m: Access, reg: Registry)
    requires OutputAccess(m, reg)
    ensures Get(m.kind).JText? && Get(m.kind).text in ACCESS_TYPES && CredentialsValid(m.credentials)
    ensures Get(m.id).JText? && IsIdentifier(Get(m.id).text)
  {
  }

  /** One method of a second pass. */
  lemma AccessAcceptedIff(st: AccessState, again: seq<Endpoint>, reg: Registry, more: set<string>, m: Access, allowLegacy: bool, rt: Runtime)
    requires rt.Lawful() && SeenAgain(st.registry, again, reg, more) && OutputAccess(m, reg)
    requires Get(m.id).JText? && Get(m.id).text !in st.ids
    ensures var r := AddAccess(st, Doc(m), allowLegacy, rt);
            && (r.Ok? <==> TurnAccepts(m, reg, more, rt))
            && (r.Ok? ==> && r.value.registry == LinkOf(st.registry, m, allowLegacy, rt).value.registry
                          && r.value.ids == st.ids + {Get(m.id).text})
  {
    hide LinkOf, NormalizeAccessType, AccessIdOf, FindById, CredentialsValid, WriteAccess, OutputAccess, SeenAgain, IsIdentifier,
         TurnAccepts;
    AccessFields(m, reg);
    LinkAgainIff(st.registry, again, reg, more, m, allowLegacy, rt);
    AccessTypeAgain(Get(m.kind).text, rt);
    if LinkOf(st.registry, m, allowLegacy, rt).Ok? {
      AccessIdAgain(m, Get(m.kind).text, LinkOf(st.registry, m, allowLegacy, rt).value.endpointId, st.ids, rt);
    }
  }

  lemma FreshId(front: seq<Access>, last: Access, ids: set<string>)
    requires forall i, j | 0 <= i < j < |front + [last]| :: Get((front + [last])[i].id) != Get((front + [last])[j].id)
    requires IdsOf(ids, front) && Get(last.id).JText?
    ensures Get(last.id).text !in ids && IdsOf(ids + {Get(last.id).text}, front + [last])
  {
    LastMethodFresh(front, last);
    assert forall m :: m in front + [last] <==> m in front || m == last;
  }

  /** A second pass accepts the methods exactly when each turn does. */
  lemma {:induction false} SecondMethodsAccept(again: Registry, reg: Registry, s: seq<Access>, allowLegacy: bool, rt: Runtime)
    requires rt.Lawful() && SeenAgain(again, again.endpoints, reg, {}) && MethodList(reg, s)
    ensures var r := AddAccessMethods(again, Docs(s), allowLegacy, rt);
            && (r.Ok? <==> TurnsAccept(reg, s, rt))
            && (r.Ok? ==> SeenAgain(r.value.registry, again.endpoints, reg, NewUrls(s, reg.endpoints)) && IdsOf(r.value.ids, s))
  {
    hide AddAccess, OutputAccess, SeenAgain, WellNamed, TurnAccepts, NewUrls, TurnsAccept, IdsOf, Sound;
    if s == [] {
      NoTurnsAgain(reg, rt);
    } else {
      var front, last := s[..|s| - 1], s[|s| - 1];
      MethodListSplits(reg, s, front, last);
      DocsPrefix(s);
      SecondMethodsAccept(again, reg, front, allowLegacy, rt);
      TurnsAcceptSnoc(reg, front, last, rt);
      NewUrlsSnoc(front, last, reg.endpoints);
      if AddAccessMethods(again, Docs(front), allowLegacy, rt).Ok? {
        var st := AddAccessMethods(again, Docs(front), allowLegacy, rt).value;
        var more := NewUrls(front, reg.endpoints);
        AccessFields(last, reg);
        FreshId(front, last, st.ids);
        AccessAcceptedIff(st, again.endpoints, reg, more, last, allowLegacy, rt);
        if AddAccess(st, Doc(last), allowLegacy, rt).Ok? {
          LinkOfAccess(st, last, allowLegacy, rt);
          SeenAgainGrows(st.registry, again.endpoints, reg, more, last, allowLegacy, rt);
        }
      }
    }
  }

  lemma LinkOfAccess(st: AccessState, raw: Access, allowLegacy: bool, rt: Runtime)
    requires AddAccess(st, Doc(raw), allowLegacy, rt).Ok?
    ensures LinkOf(st.registry, raw, allowLegacy, rt).Ok?
  {
    hide LinkOf;
  }

  lemma NoTurnsAgain(reg: Registry, rt: Runtime)
    ensures TurnsAccept(reg, [], rt) && NewUrls([], reg.endpoints) == {} && IdsOf({}, [])
  {
  }

  // The whole canonical document.

  lemma {:induction false} PortsAgain(s: seq<Port>, taken: set<Socket>)
    requires forall p | p in s :: OutputPort(p)
    ensures AddPorts(Docs(s), taken).Ok?
  {
    hide NormalizePort, SocketOf;
    if s != [] {
      DocsPrefix(s);
      assert forall p | p in s[..|s| - 1] :: p in s;
      PortsAgain(s[..|s| - 1], taken);
      assert s[|s| - 1] in s;
    }
  }

  /** A second pass accepts a canonical document exactly when it accepts each endpoint and each turn of
      the methods; ports and the service part never fail. */
  lemma CanonicalAcceptedIff(out: Data, st: AccessState, ports: PortState, isService: bool, allowLegacy: bool, rt: Runtime)
    requires rt.Lawful() && WrittenFrom(out, st, ports, isService, rt)
    ensures NormalizeData(out, isService, allowLegacy, rt).Ok? <==>
            AllAccept(st.registry.endpoints, rt) && TurnsAccept(st.registry, st.methods, rt)
  {
    hide AddEndpoints, AddAccessMethods, AddPorts, ServiceInterface, SocketsOf, MethodsOk, Sound, MethodList, AllAccept, TurnsAccept,
         RegistryOf, DistinctList, Docs, Mirrors, OutputPort;
    var endpoints, methods := st.registry.endpoints, st.methods;
    DocsOfNothing();
    MethodsAreListed(st);
    SoundIsDistinct(st.registry);
    SecondEndpointsAccept(endpoints, rt);
    if AddEndpoints(Docs(endpoints), rt).Ok? {
      var reg := AddEndpoints(Docs(endpoints), rt).value;
      AddEndpointsSound(Docs(endpoints), rt);
      MirrorIsSeen(reg, st.registry);
      SecondMethodsAccept(reg, st.registry, methods, allowLegacy, rt);
      if AddAccessMethods(reg, Docs(methods), allowLegacy, rt).Ok? {
        var last := AddAccessMethods(reg, Docs(methods), allowLegacy, rt).value.registry;
        AddAccessMethodsOk(reg, Docs(methods), allowLegacy, rt);
        PortsAgain(ports.ports, SocketsOf(last.endpoints));
        SameLength(reg.endpoints, endpoints);
        if endpoints == [] {
          NoneStayNone(st, reg, allowLegacy, rt);
        }
        assert last.endpoints != [] <==> endpoints != [];
      }
    }
  }

  lemma NoneStayNone(st: AccessState, r: Registry, allowLegacy: bool, rt: Runtime)
    requires rt.Lawful() && MethodsOk(st) && Sound(r) && st.registry.endpoints == r.endpoints == []
    requires AddAccessMethods(r, Docs(st.methods), allowLegacy, rt).Ok?
    ensures AddAccessMethods(r, Docs(st.methods), allowLegacy, rt).value.registry.endpoints == []
  {
    hide AddAccessMethods, IsIdentifier, CredentialsValid, Docs, RegistryOk;
    MethodsAreListed(st);
    SecondMethods(st.registry, st.methods, allowLegacy, rt);
    forall m | m in st.methods ensures WellNamed(m, st.registry.endpoints) {
      NamesOne(m, st.registry);
    }
  }

  lemma NamesOne(m: Access, reg: Registry)
    requires OutputAccess(m, reg) && reg.endpoints == []
    ensures Get(m.endpointId) == JNull
  {
    hide IsIdentifier, CredentialsValid, Names;
  }

  lemma MirrorIsSeen(r: Registry, reg: Registry)
    requires Sound(r) && Sound(reg) && Mirrors(r.endpoints, reg.endpoints)
    ensures SeenAgain(r, r.endpoints, reg, {})
  {
    hide OutputEndpoint, Fingerprint, RegistryOf;
    forall u ensures u in r.byUrl <==> u in reg.byUrl {
      if u in r.byUrl {
        var i :| 0 <= i < |r.endpoints| && r.endpoints[i] == r.byUrl[u];
        assert Fingerprint(reg.endpoints[i]) == Some(u) && reg.endpoints[i] in reg.endpoints;
      }
      if u in reg.byUrl {
        var i :| 0 <= i < |reg.endpoints| && reg.endpoints[i] == reg.byUrl[u];
        assert Fingerprint(r.endpoints[i]) == Some(u) && r.endpoints[i] in r.endpoints;
      }
    }
  }

  lemma SameLength(d: seq<Endpoint>, s: seq<Endpoint>)
    requires Mirrors(d, s)
    ensures |d| == |s|
  {
  }

  // What can be read off the given document.

  /** The URL a pass writes into a method that names, by its id alone, an endpoint without a URL. */
  function Synthesized(raw: Access, reg: Registry, allowLegacy: bool): Option<string> {
    if GivenUrl(raw, allowLegacy).Some? || Get(raw.endpointId) == JNull then None
    else
      var target := FindById(reg.endpoints, Get(raw.endpointId));
      if target.None? || Carries(target.value) then None else Some(EndpointUrl(target.value))
  }

  function SynthesizedAt(endpoints: seq<Item<Endpoint>>, methods: seq<Item<Access>>, i: nat, allowLegacy: bool, rt: Runtime)
    : Option<string>
    requires i < |methods|
  {
    if methods[i].Doc? then Synthesized(methods[i].doc, RegistryAt(endpoints, methods, i, allowLegacy, rt), allowLegacy) else None
  }

  /** The method with its canonical access type. */
  function WithKind(raw: Access, rt: Runtime): Access {
    var kind := NormalizeAccessType(Get(raw.kind), rt);
    if kind.Ok? then raw.(kind := Some(JText(kind.value))) else raw
  }

  /** The synthesized URL is that of no endpoint, of no access method and of no earlier synthesized one,
      and the endpoint it would be promoted to can be read. */
  predicate SynthesisIsAccepted(endpoints: seq<Item<Endpoint>>, methods: seq<Item<Access>>, i: nat, allowLegacy: bool, rt: Runtime)
    requires i < |methods| && methods[i].Doc? && SynthesizedAt(endpoints, methods, i, allowLegacy, rt).Some?
  {
    var text := SynthesizedAt(endpoints, methods, i, allowLegacy, rt).value;
    && !IsUrlOf(Strip(text), endpoints) && !IsGivenBy(Strip(text), methods, allowLegacy)
    && (forall j | 0 <= j < i && SynthesizedAt(endpoints, methods, j, allowLegacy, rt).Some? ::
          Strip(SynthesizedAt(endpoints, methods, j, allowLegacy, rt).value) != Strip(text))
    && FactsOf(Promotion(WithKind(methods[i].doc, rt), text, rt), rt).Ok?
  }

  predicate PromotedMeet(endpoints: seq<Item<Endpoint>>, methods: seq<Item<Access>>, allowLegacy: bool, q: string -> bool) {
    forall i | 0 <= i < |methods| && methods[i].Doc? && IsPromoted(methods[i].doc, endpoints, methods[..i], allowLegacy) ::
      q(GivenUrl(methods[i].doc, allowLegacy).value)
  }

  predicate SynthesesAreAccepted(endpoints: seq<Item<Endpoint>>, methods: seq<Item<Access>>, allowLegacy: bool, rt: Runtime) {
    forall i | 0 <= i < |methods| && SynthesizedAt(endpoints, methods, i, allowLegacy, rt).Some? ::
      SynthesisIsAccepted(endpoints, methods, i, allowLegacy, rt)
  }

  function Survives(rt: Runtime): Endpoint -> bool {
    raw => NotFatal(raw, rt)
  }

  function HasHost(rt: Runtime): string -> bool {
    url => !GivesBlankHost(url, rt)
  }

  function Accepted(rt: Runtime): Endpoint -> bool {
    e => AcceptsAgain(e, rt)
  }

  /** What makes a second pass accept, read off the given document: nothing fatal applies to a kept
      endpoint, no promoted URL gives a blank host, and every synthesized URL is new and readable. */
  predicate SecondPassAccepts(data: Data, allowLegacy: bool, rt: Runtime) {
    var endpoints, methods := ListOf(data.endpoints), ListOf(data.accessMethods);
    endpoints.Ok? && methods.Ok?
    && KeptMeet(endpoints.value, Survives(rt)) && PromotedMeet(endpoints.value, methods.value, allowLegacy, HasHost(rt))
    && SynthesesAreAccepted(endpoints.value, methods.value, allowLegacy, rt)
  }

  // From the input to the output: endpoints.

  lemma PromotedSplits(endpoints: seq<Item<Endpoint>>, methods: seq<Item<Access>>, allowLegacy: bool, q: string -> bool)
    requires methods != []
    ensures var n := |methods| - 1;
            PromotedMeet(endpoints, methods, allowLegacy, q) <==>
            && PromotedMeet(endpoints, methods[..n], allowLegacy, q)
            && (methods[n].Doc? && IsPromoted(methods[n].doc, endpoints, methods[..n], allowLegacy) ==>
                q(GivenUrl(methods[n].doc, allowLegacy).value))
  {
    hide GivenUrl, IsUrlOf, IsGivenBy;
    var front := methods[..|methods| - 1];
    assert forall i | 0 <= i < |front| :: methods[i] == front[i] && methods[..i] == front[..i];
  }

  /** The final endpoints have a property exactly when the kept documents and the promoted URLs decide so. */
  lemma {:induction false} PromotedDocuments(endpoints: seq<Item<Endpoint>>, reg: Registry, methods: seq<Item<Access>>,
                                             allowLegacy: bool, q: string -> bool, p: Endpoint -> bool, rt: Runtime)
    requires rt.Lawful() && UrlDecides(q, p, rt)
    requires AddEndpoints(endpoints, rt) == Ok(reg) && AddAccessMethods(reg, methods, allowLegacy, rt).Ok?
    ensures AllMeet(AddAccessMethods(reg, methods, allowLegacy, rt).value.registry.endpoints, p) <==>
            AllMeet(reg.endpoints, p) && PromotedMeet(endpoints, methods, allowLegacy, q)
  {
    hide AddEndpoints, AddAccess, UrlDecides, AllMeet, PromotedMeet, GivenUrl, IsUrlOf, IsGivenBy;
    if methods == [] {
      NonePromoted(endpoints, allowLegacy, q);
    } else {
      var n := |methods| - 1;
      var front := methods[..n];
      PromotedDocuments(endpoints, reg, front, allowLegacy, q, p, rt);
      TurnsSettle(endpoints, reg, front, allowLegacy, rt);
      PromotedSplits(endpoints, methods, allowLegacy, q);
      var st := AddAccessMethods(reg, front, allowLegacy, rt).value;
      OnlyObjects(st, methods[n], allowLegacy, rt);
      LinkOfAccess(st, methods[n].doc, allowLegacy, rt);
      RegistryOfAccess(st, methods[n].doc, allowLegacy, rt);
      LinkMeets(st.registry, methods[n].doc, allowLegacy, rt, LinkOf(st.registry, methods[n].doc, allowLegacy, rt).value, q, p);
    }
  }

  lemma RegistryOfAccess(st: AccessState, raw: Access, allowLegacy: bool, rt: Runtime)
    requires AddAccess(st, Doc(raw), allowLegacy, rt).Ok? && LinkOf(st.registry, raw, allowLegacy, rt).Ok?
    ensures AddAccess(st, Doc(raw), allowLegacy, rt).value.registry == LinkOf(st.registry, raw, allowLegacy, rt).value.registry
  {
    hide LinkOf;
  }

  lemma NonePromoted(endpoints: seq<Item<Endpoint>>, allowLegacy: bool, q: string -> bool)
    ensures PromotedMeet(endpoints, [], allowLegacy, q)
  {
  }

  lemma FinalEndpoints(endpoints: seq<Item<Endpoint>>, reg: Registry, methods: seq<Item<Access>>, allowLegacy: bool, rt: Runtime)
    requires rt.Lawful() && AddEndpoints(endpoints, rt) == Ok(reg) && AddAccessMethods(reg, methods, allowLegacy, rt).Ok?
    ensures AllAccept(AddAccessMethods(reg, methods, allowLegacy, rt).value.registry.endpoints, rt) <==>
            KeptMeet(endpoints, Survives(rt)) && PromotedMeet(endpoints, methods, allowLegacy, HasHost(rt))
  {
    hide AddEndpoints, AddAccessMethods, NormalizeEndpoint, NotFatal, AcceptsAgain, GivesBlankHost, Promotion, KeptMeet, PromotedMeet, Strip, IsBlank;
    forall raw, used, e | NormalizeEndpoint(raw, used, rt) == Ok(e) ensures Accepted(rt)(e) <==> Survives(rt)(raw) {
      AcceptedAgainIff(raw, used, rt, e);
    }
    KeptDocuments(endpoints, Survives(rt), Accepted(rt), rt);
    forall raw, text, used, e | !IsBlank(text) && NormalizeEndpoint(Promotion(raw, text, rt), used, rt) == Ok(e)
      ensures Accepted(rt)(e) <==> HasHost(rt)(Strip(text))
    {
      PromotionAcceptedAgainIff(raw, text, used, rt, e);
    }
    PromotedDocuments(endpoints, reg, methods, allowLegacy, HasHost(rt), Accepted(rt), rt);
  }

  // From the input to the output: access methods.

  /** The written method at `i`, and the state before its turn. */
  lemma {:induction false} WrittenAt(reg: Registry, methods: seq<Item<Access>>, i: nat, allowLegacy: bool, rt: Runtime)
    returns (st: AccessState)
    requires i < |methods| && Sound(reg) && AddAccessMethods(reg, methods, allowLegacy, rt).Ok?
    ensures AddAccessMethods(reg, methods[..i], allowLegacy, rt) == Ok(st) && MethodsOk(st) && methods[i].Doc?
    ensures AddAccess(st, methods[i], allowLegacy, rt).Ok?
    ensures var all, next := AddAccessMethods(reg, methods, allowLegacy, rt).value, AddAccess(st, methods[i], allowLegacy, rt).value;
            && next.methods <= all.methods && |next.methods| == i + 1 && |all.methods| == |methods|
            && next.registry.endpoints <= all.registry.endpoints && Sound(all.registry) && MethodsOk(next)
    decreases |methods|
  {
    hide AddAccess, MethodsOk, Sound;
    var front := methods[..|methods| - 1];
    AddAccessMethodsOk(reg, methods, allowLegacy, rt);
    AddAccessMethodsOk(reg, front, allowLegacy, rt);
    var before := AddAccessMethods(reg, front, allowLegacy, rt).value;
    var last := methods[|methods| - 1];
    AddAccessOk(before, last, allowLegacy, rt, AddAccess(before, last, allowLegacy, rt).value);
    if i == |methods| - 1 {
      st := before;
      OnlyObjects(st, last, allowLegacy, rt);
    } else {
      st := WrittenAt(reg, front, i, allowLegacy, rt);
      assert front[..i] == methods[..i];
      MethodsGrow(before, last, allowLegacy, rt);
    }
    MethodsOkSound(AddAccessMethods(reg, methods, allowLegacy, rt).value);
  }

  lemma MethodsOkSound(st: AccessState)
    requires MethodsOk(st)
    ensures Sound(st.registry)
  {
  }

  lemma MethodsGrow(st: AccessState, item: Item<Access>, allowLegacy: bool, rt: Runtime)
    requires AddAccess(st, item, allowLegacy, rt).Ok?
    ensures st.methods <= AddAccess(st, item, allowLegacy, rt).value.methods
  {
    hide LinkOf, NormalizeAccessType, AccessIdOf, FindById, CredentialsValid, WriteAccess;
  }

  /** Carrying a URL is decided by the first endpoint found under the id. */
  lemma CarriedIsFound(reg: Registry, id: Json)
    requires Sound(reg) && FindById(reg.endpoints, id).Some?
    ensures Carried(id, reg.endpoints) <==> Carries(FindById(reg.endpoints, id).value)
  {
    hide OutputEndpoint, Fingerprint, RegistryOf, Carries, FindById;
    FindByIdFinds(reg.endpoints, id);
    var found := FindById(reg.endpoints, id).value;
    forall e | e in reg.endpoints && e.id == Some(id) ensures e == found {
      SameIdSameEndpoint(reg, e, found);
    }
  }

  lemma SamePromotion(raw: Access, link: Link, kind: string, id: string, target: Option<Endpoint>, text: string, rt: Runtime)
    requires NormalizeAccessType(Get(raw.kind), rt) == Ok(kind)
    ensures Promotion(WriteAccess(raw, link, kind, id, target), text, rt) == Promotion(WithKind(raw, rt), text, rt)
  {
    hide NormalizeAccessType, EndpointTypeFor, EndpointUrl;
  }

  lemma WrittenText(raw: Access, link: Link, kind: string, id: string, e: Endpoint)
    requires link.endpointId != JNull && link.url == None
    ensures UrlText(WriteAccess(raw, link, kind, id, Some(e))) == EndpointUrl(e)
  {
    hide EndpointUrl;
  }

  lemma AccessParts(st: AccessState, raw: Access, allowLegacy: bool, rt: Runtime)
    returns (link: Link, kind: string, id: string, target: Option<Endpoint>)
    requires AddAccess(st, Doc(raw), allowLegacy, rt).Ok?
    ensures LinkOf(st.registry, raw, allowLegacy, rt) == Ok(link) && NormalizeAccessType(Get(raw.kind), rt) == Ok(kind)
    ensures target == FindById(link.registry.endpoints, link.endpointId) && (link.endpointId != JNull ==> target.Some?)
    ensures var next := AddAccess(st, Doc(raw), allowLegacy, rt).value;
            next.registry == link.registry && next.methods == st.methods + [WriteAccess(raw, link, kind, id, target)]
  {
    hide LinkOf, NormalizeAccessType, AccessIdOf, FindById, CredentialsValid, WriteAccess;
    link := LinkOf(st.registry, raw, allowLegacy, rt).value;
    kind := NormalizeAccessType(Get(raw.kind), rt).value;
    id := AccessIdOf(raw, kind, link.endpointId, st.ids, rt).value;
    target := FindById(link.registry.endpoints, link.endpointId);
  }

  /** A written method names an endpoint without a URL exactly when one was synthesized, and carries it. */
  lemma WrittenIsSynthesized(st: AccessState, raw: Access, allowLegacy: bool, rt: Runtime, all: Registry) returns (m: Access)
    requires MethodsOk(st) && AddAccess(st, Doc(raw), allowLegacy, rt).Ok? && Sound(all)
    requires AddAccess(st, Doc(raw), allowLegacy, rt).value.registry.endpoints <= all.endpoints
    ensures AddAccess(st, Doc(raw), allowLegacy, rt).value.methods == st.methods + [m]
    ensures var text := Synthesized(raw, st.registry, allowLegacy);
            && (!WellNamed(m, all.endpoints) <==> text.Some?)
            && (text.Some? ==> UrlText(m) == text.value && Promotion(m, text.value, rt) == Promotion(WithKind(raw, rt), text.value, rt))
  {
    hide LinkOf, NormalizeAccessType, AddAccess, FindById, OutputAccess, Sound, GivenUrl, WellNamed, WriteAccess, Promotion, WithKind,
         EndpointUrl, Carries, Carried, UrlText;
    var next := AddAccess(st, Doc(raw), allowLegacy, rt).value;
    var link, kind, id, target := AccessParts(st, raw, allowLegacy, rt);
    m := WriteAccess(raw, link, kind, id, target);
    AddAccessOk(st, Doc(raw), allowLegacy, rt, next);
    LinkIndex(st.registry, raw, allowLegacy, rt, link);
    WrittenIsWellNamed(st.registry, raw, allowLegacy, rt, link, kind, id, target);
    assert m in next.methods;
    WellNamedStays(m, next.registry, all);
    if GivenUrl(raw, allowLegacy).None? && Get(raw.endpointId) != JNull {
      CarriedIsFound(st.registry, Get(raw.endpointId));
      SamePromotion(raw, link, kind, id, target, EndpointUrl(target.value), rt);
      WrittenText(raw, link, kind, id, target.value);
    }
  }

  /** The synthesized URLs are the texts of the written methods that are not well named. */
  ghost predicate Matches(endpoints: seq<Item<Endpoint>>, methods: seq<Item<Access>>, s: seq<Access>, all: Registry, allowLegacy: bool,
                          rt: Runtime)
  {
    && |s| == |methods|
    && forall i | 0 <= i < |s| ::
         var text := SynthesizedAt(endpoints, methods, i, allowLegacy, rt);
         && methods[i].Doc? && (!WellNamed(s[i], all.endpoints) <==> text.Some?)
         && (text.Some? ==> UrlText(s[i]) == text.value
                            && Promotion(s[i], text.value, rt) == Promotion(WithKind(methods[i].doc, rt), text.value, rt))
  }

  lemma MethodsMatch(endpoints: seq<Item<Endpoint>>, reg: Registry, methods: seq<Item<Access>>, allowLegacy: bool, rt: Runtime)
    requires AddEndpoints(endpoints, rt) == Ok(reg) && AddAccessMethods(reg, methods, allowLegacy, rt).Ok?
    ensures var st := AddAccessMethods(reg, methods, allowLegacy, rt).value;
            Matches(endpoints, methods, st.methods, st.registry, allowLegacy, rt)
  {
    hide AddEndpoints, AddAccessMethods, AddAccess, Sound, MethodsOk, WellNamed, Synthesized, Promotion, WithKind;
    var st := AddAccessMethods(reg, methods, allowLegacy, rt).value;
    AddEndpointsSound(endpoints, rt);
    AddAccessMethodsOk(reg, methods, allowLegacy, rt);
    forall i | 0 <= i < |methods|
      ensures var text := SynthesizedAt(endpoints, methods, i, allowLegacy, rt);
              && methods[i].Doc? && (!WellNamed(st.methods[i], st.registry.endpoints) <==> text.Some?)
              && (text.Some? ==> UrlText(st.methods[i]) == text.value
                                 && Promotion(st.methods[i], text.value, rt) == Promotion(WithKind(methods[i].doc, rt), text.value, rt))
    {
      var before := WrittenAt(reg, methods, i, allowLegacy, rt);
      AddAccessMethodsOk(reg, methods[..i], allowLegacy, rt);
      var m := WrittenIsSynthesized(before, methods[i].doc, allowLegacy, rt, st.registry);
      assert AddAccess(before, methods[i], allowLegacy, rt).value.methods[i] == m == st.methods[i];
    }
  }

  lemma NewUrlsMember(s: seq<Access>, n: nat, endpoints: seq<Endpoint>, u: string)
    requires n <= |s|
    ensures u in NewUrls(s[..n], endpoints) <==> exists j | 0 <= j < n :: !WellNamed(s[j], endpoints) && Strip(UrlText(s[j])) == u
  {
    hide WellNamed, Strip, UrlText;
    if j :| 0 <= j < n && !WellNamed(s[j], endpoints) && Strip(UrlText(s[j])) == u {
      assert s[..n][j] == s[j];
    }
    if m :| m in s[..n] && !WellNamed(m, endpoints) && Strip(UrlText(m)) == u {
      var j :| 0 <= j < n && s[..n][j] == m;
      assert s[j] == m;
    }
  }

  lemma OneTurnAccepts(endpoints: seq<Item<Endpoint>>, methods: seq<Item<Access>>, s: seq<Access>, all: Registry, i: nat, allowLegacy: bool,
                       rt: Runtime)
    requires Matches(endpoints, methods, s, all, allowLegacy, rt) && MethodIndexIs(all, endpoints, methods, allowLegacy) && i < |s|
    ensures TurnAccepts(s[i], all, NewUrls(s[..i], all.endpoints), rt) <==>
            (SynthesizedAt(endpoints, methods, i, allowLegacy, rt).Some? ==> SynthesisIsAccepted(endpoints, methods, i, allowLegacy, rt))
  {
    hide WellNamed, Strip, UrlText, SynthesizedAt, IsUrlOf, IsGivenBy, Promotion, WithKind, FactsOf, NewUrls;
    if SynthesizedAt(endpoints, methods, i, allowLegacy, rt).Some? {
      var u := Strip(SynthesizedAt(endpoints, methods, i, allowLegacy, rt).value);
      NewUrlsMember(s, i, all.endpoints, u);
    }
  }

  lemma TurnsAcceptIff(endpoints: seq<Item<Endpoint>>, reg: Registry, methods: seq<Item<Access>>, allowLegacy: bool, rt: Runtime)
    requires rt.Lawful() && AddEndpoints(endpoints, rt) == Ok(reg) && AddAccessMethods(reg, methods, allowLegacy, rt).Ok?
    ensures var st := AddAccessMethods(reg, methods, allowLegacy, rt).value;
            TurnsAccept(st.registry, st.methods, rt) <==> SynthesesAreAccepted(endpoints, methods, allowLegacy, rt)
  {
    hide AddEndpoints, AddAccessMethods, TurnAccepts, SynthesizedAt, SynthesisIsAccepted, NewUrls, MethodIndexIs;
    var st := AddAccessMethods(reg, methods, allowLegacy, rt).value;
    MethodsMatch(endpoints, reg, methods, allowLegacy, rt);
    TurnsSettle(endpoints, reg, methods, allowLegacy, rt);
    MatchesLength(endpoints, methods, st.methods, st.registry, allowLegacy, rt);
    forall i | 0 <= i < |methods|
      ensures methods[i].Doc?
      ensures TurnAccepts(st.methods[i], st.registry, NewUrls(st.methods[..i], st.registry.endpoints), rt) <==>
              (SynthesizedAt(endpoints, methods, i, allowLegacy, rt).Some? ==> SynthesisIsAccepted(endpoints, methods, i, allowLegacy, rt))
    {
      OneTurnAccepts(endpoints, methods, st.methods, st.registry, i, allowLegacy, rt);
    }
  }

  lemma MatchesLength(endpoints: seq<Item<Endpoint>>, methods: seq<Item<Access>>, s: seq<Access>, all: Registry, allowLegacy: bool,
                      rt: Runtime)
    requires Matches(endpoints, methods, s, all, allowLegacy, rt)
    ensures |s| == |methods| && forall i | 0 <= i < |methods| :: methods[i].Doc?
  {
  }

  /** A second pass accepts the output of the first exactly when the input says so. */
  lemma SecondPassAcceptsIff(data: Data, isService: bool, allowLegacy: bool, rt: Runtime, out: Data)
    requires rt.Lawful() && NormalizeData(data, isService, allowLegacy, rt) == Ok(out)
    ensures NormalizeData(out, isService, allowLegacy, rt).Ok? <==> SecondPassAccepts(data, allowLegacy, rt)
  {
    hide NormalizeData, AddEndpoints, AddAccessMethods, KeptMeet, PromotedMeet, SynthesesAreAccepted, AllAccept, TurnsAccept, ObjectsOf,
         Docs, ListOf, WrittenFrom;
    var endpoints, methods, reg, st := PartsOfPass(data, isService, allowLegacy, rt, out);
    var st', ports := CanonicalParts(data, isService, allowLegacy, rt, out);
    OutputLists(out, st', ports, isService, rt);
    SameRegistry(endpoints, reg, methods, allowLegacy, rt, out, st', ports, isService);
    CanonicalAcceptedIff(out, st', ports, isService, allowLegacy, rt);
    FinalEndpoints(endpoints, reg, methods, allowLegacy, rt);
    TurnsAcceptIff(endpoints, reg, methods, allowLegacy, rt);
  }

  /** The parts a document was written from have the registry of its endpoints. */
  lemma SameRegistry(endpoints: seq<Item<Endpoint>>, reg: Registry, methods: seq<Item<Access>>, allowLegacy: bool, rt: Runtime, out: Data,
                     st: AccessState, ports: PortState, isService: bool)
    requires AddEndpoints(endpoints, rt) == Ok(reg) && AddAccessMethods(reg, methods, allowLegacy, rt).Ok?
    requires WrittenFrom(out, st, ports, isService, rt)
    ensures var all := AddAccessMethods(reg, methods, allowLegacy, rt).value.registry;
            st.registry.endpoints == all.endpoints ==> st.registry == all
  {
    hide AddEndpoints, AddAccessMethods, PortList, ServiceInterface, RegistryOf, Docs;
    AddEndpointsSound(endpoints, rt);
    AddAccessMethodsOk(reg, methods, allowLegacy, rt);
    MethodsOkSound(AddAccessMethods(reg, methods, allowLegacy, rt).value);
    RegistryIsBuilt(st.registry);
    RegistryIsBuilt(AddAccessMethods(reg, methods, allowLegacy, rt).value.registry);
  }

  // The third pass.

  /** No synthesized URL gives a blank host. */
  predicate ThirdPassAccepts(data: Data, allowLegacy: bool, rt: Runtime) {
    var endpoints, methods := ListOf(data.endpoints), ListOf(data.accessMethods);
    endpoints.Ok? && methods.Ok?
    && forall i | 0 <= i < |methods.value| && SynthesizedAt(endpoints.value, methods.value, i, allowLegacy, rt).Some? ::
         !GivesBlankHost(Strip(SynthesizedAt(endpoints.value, methods.value, i, allowLegacy, rt).value), rt)
  }

  lemma UrlOfDocs(reg: Registry, u: string)
    requires Sound(reg)
    ensures IsUrlOf(u, Docs(reg.endpoints)) <==> u in reg.byUrl
  {
    hide Fingerprint, OutputEndpoint, RegistryOf;
    if u in reg.byUrl {
      var i :| 0 <= i < |reg.endpoints| && reg.endpoints[i] == reg.byUrl[u];
      assert Docs(reg.endpoints)[i] == Doc(reg.byUrl[u]);
    }
    if item :| item in Docs(reg.endpoints) && item.Doc? && Fingerprint(item.doc) == Some(u) {
      var i :| 0 <= i < |reg.endpoints| && Docs(reg.endpoints)[i] == item;
      assert reg.endpoints[i] in reg.endpoints;
    }
  }

  /** The URL a canonical method gives is that of an endpoint, or it is a synthesized one. */
  lemma GivenIsKnown(m: Access, reg: Registry, allowLegacy: bool)
    requires Sound(reg) && OutputAccess(m, reg) && GivenUrl(m, allowLegacy).Some?
    ensures GivenUrl(m, allowLegacy).value == Strip(UrlText(m)) && (WellNamed(m, reg.endpoints) ==> Strip(UrlText(m)) in reg.byUrl)
  {
    hide IsIdentifier, Strip, IsBlank, CredentialsValid, EndpointUrl, RegistryOf, OutputEndpoint, Fingerprint, Carries;
    var e :| e in reg.endpoints && Names(m, e, reg);
    if WellNamed(m, reg.endpoints) {
      var d :| d in reg.endpoints && d.id == m.endpointId && Carries(d);
      SameIdSameEndpoint(reg, d, e);
    }
  }

  lemma UnnamedGives(m: Access, reg: Registry, allowLegacy: bool)
    requires OutputAccess(m, reg) && !WellNamed(m, reg.endpoints)
    ensures GivenUrl(m, allowLegacy) == Some(Strip(UrlText(m)))
  {
    hide IsIdentifier, Strip, IsBlank, CredentialsValid, EndpointUrl;
    var e :| e in reg.endpoints && Names(m, e, reg);
  }

  /** The second pass promotes exactly the synthesized URLs. */
  lemma PromotedAgainIff(st: AccessState, i: nat, allowLegacy: bool, rt: Runtime)
    requires MethodsOk(st) && TurnsAccept(st.registry, st.methods, rt) && i < |st.methods|
    ensures var m := st.methods[i];
            && (IsPromoted(m, Docs(st.registry.endpoints), Docs(st.methods)[..i], allowLegacy) <==> !WellNamed(m, st.registry.endpoints))
            && (!WellNamed(m, st.registry.endpoints) ==> GivenUrl(m, allowLegacy) == Some(Strip(UrlText(m))))
  {
    hide OutputAccess, Sound, WellNamed, Strip, UrlText, GivenUrl, FactsOf, Promotion, IsUrlOf, NewUrls;
    var reg, s := st.registry, st.methods;
    var m := s[i];
    assert m in s;
    if WellNamed(m, reg.endpoints) {
      WellNamedIsNotPromoted(m, reg, Docs(s)[..i], reg, allowLegacy, rt);
    } else {
      UnnamedGives(m, reg, allowLegacy);
      var u := Strip(UrlText(m));
      UrlOfDocs(reg, u);
      NewUrlsMember(s, i, reg.endpoints, u);
      assert TurnAccepts(m, reg, NewUrls(s[..i], reg.endpoints), rt);
      if item :| item in Docs(s)[..i] && item.Doc? && GivenUrl(item.doc, allowLegacy) == Some(u) {
        var j :| 0 <= j < i && Docs(s)[..i][j] == item;
        assert s[j] == item.doc && s[j] in s;
        GivenIsKnown(s[j], reg, allowLegacy);
        assert false;
      }
    }
  }

  lemma HarmlessSurvives(raw: Endpoint, rt: Runtime)
    requires Harmless(raw, rt)
    ensures NotFatal(raw, rt)
  {
    hide FactsOf, IsFatal, Hazard;
    if FactsOf(raw, rt).Ok? {
      FatalIsHazard(raw, FactsOf(raw, rt).value, rt);
    }
  }

  /** A canonical document is its own source of a pass in which only a blank host can be fatal. */
  lemma CanonicalSource(st: AccessState, allowLegacy: bool, rt: Runtime)
    requires MethodsOk(st) && TurnsAccept(st.registry, st.methods, rt) && AllHarmless(st.registry.endpoints, rt)
    ensures var endpoints, methods := Docs(st.registry.endpoints), Docs(st.methods);
            && KeptMeet(endpoints, Survives(rt)) && SynthesesAreAccepted(endpoints, methods, allowLegacy, rt)
            && (PromotedMeet(endpoints, methods, allowLegacy, HasHost(rt)) <==>
                forall i | 0 <= i < |st.methods| && !WellNamed(st.methods[i], st.registry.endpoints) ::
                  !GivesBlankHost(Strip(UrlText(st.methods[i])), rt))
  {
    hide OutputAccess, Sound, WellNamed, Strip, UrlText, FactsOf, TurnsAccept, NotFatal, Harmless, IsPromoted, GivesBlankHost, IsKept,
         RegistryAt, SynthesisIsAccepted, GivenUrl;
    var endpoints, methods := Docs(st.registry.endpoints), Docs(st.methods);
    forall i | 0 <= i < |endpoints| ensures NotFatal(endpoints[i].doc, rt) {
      assert st.registry.endpoints[i] in st.registry.endpoints;
      HarmlessSurvives(st.registry.endpoints[i], rt);
    }
    forall i | 0 <= i < |methods| ensures SynthesizedAt(endpoints, methods, i, allowLegacy, rt) == None {
      assert st.methods[i] in st.methods;
      OutputIsAddressed(st.methods[i], st.registry, allowLegacy);
    }
    forall i | 0 <= i < |methods|
      ensures IsPromoted(methods[i].doc, endpoints, methods[..i], allowLegacy) <==> !WellNamed(st.methods[i], st.registry.endpoints)
      ensures !WellNamed(st.methods[i], st.registry.endpoints) ==> GivenUrl(methods[i].doc, allowLegacy) == Some(Strip(UrlText(st.methods[i])))
    {
      PromotedAgainIff(st, i, allowLegacy, rt);
    }
  }

  /** A third pass accepts the output of the second exactly when no synthesized URL gave a blank host. */
  lemma ThirdPassAcceptsIff(data: Data, isService: bool, allowLegacy: bool, rt: Runtime, out: Data, again: Data)
    requires rt.Lawful() && NormalizeData(data, isService, allowLegacy, rt) == Ok(out)
    requires NormalizeData(out, isService, allowLegacy, rt) == Ok(again)
    ensures NormalizeData(again, isService, allowLegacy, rt).Ok? <==> ThirdPassAccepts(data, allowLegacy, rt)
  {
    hide NormalizeData, AddEndpoints, AddAccessMethods, KeptMeet, PromotedMeet, SynthesesAreAccepted, TurnsAccept, ObjectsOf, Docs,
         MethodsOk, AllHarmless, SynthesizedAt, WellNamed, Strip, UrlText, GivesBlankHost;
    var endpoints, methods, reg, st := PartsOfPass(data, isService, allowLegacy, rt, out);
    SecondPassAcceptsIff(data, isService, allowLegacy, rt, out);
    TurnsAcceptIff(endpoints, reg, methods, allowLegacy, rt);
    AddEndpointsSound(endpoints, rt);
    AddAccessMethodsOk(reg, methods, allowLegacy, rt);
    EndpointsAreHarmless(endpoints, rt);
    RegistryIsHarmless(reg, methods, allowLegacy, rt);
    CanonicalSource(st, allowLegacy, rt);
    SecondPassAcceptsIff(out, isService, allowLegacy, rt, again);
    MethodsMatch(endpoints, reg, methods, allowLegacy, rt);
    assert SecondPassAccepts(out, allowLegacy, rt) <==>
           PromotedMeet(Docs(st.registry.endpoints), Docs(st.methods), allowLegacy, HasHost(rt));
    MatchesByText(endpoints, methods, st.methods, st.registry, allowLegacy, rt);
  }

  lemma MatchesByText(endpoints: seq<Item<Endpoint>>, methods: seq<Item<Access>>, s: seq<Access>, all: Registry, allowLegacy: bool,
                      rt: Runtime)
    requires Matches(endpoints, methods, s, all, allowLegacy, rt)
    ensures (forall i | 0 <= i < |s| && !WellNamed(s[i], all.endpoints) :: !GivesBlankHost(Strip(UrlText(s[i])), rt)) <==>
            (forall i | 0 <= i < |methods| && SynthesizedAt(endpoints, methods, i, allowLegacy, rt).Some? ::
               !GivesBlankHost(Strip(SynthesizedAt(endpoints, methods, i, allowLegacy, rt).value), rt))
  {
    hide WellNamed, Strip, UrlText, SynthesizedAt, Promotion, WithKind, GivesBlankHost;
  }

  /** An accepted second pass has an endpoint for every synthesized URL. */
  lemma SynthesizedIsPromoted(data: Data, isService: bool, allowLegacy: bool, rt: Runtime, out: Data, again: Data, i: nat)
    requires rt.Lawful() && NormalizeData(data, isService, allowLegacy, rt) == Ok(out)
    requires NormalizeData(out, isService, allowLegacy, rt) == Ok(again)
    requires ListOf(data.endpoints).Ok? && ListOf(data.accessMethods).Ok? && i < |ListOf(data.accessMethods).value|
    requires SynthesizedAt(ListOf(data.endpoints).value, ListOf(data.accessMethods).value, i, allowLegacy, rt).Some?
    ensures var text := SynthesizedAt(ListOf(data.endpoints).value, ListOf(data.accessMethods).value, i, allowLegacy, rt).value;
            && (exists d :: d in ObjectsOf(again.endpoints) && Fingerprint(d) == Some(Strip(text)))
            && !exists d :: d in ObjectsOf(out.endpoints) && Fingerprint(d) == Some(Strip(text))
  {
    hide NormalizeData, AddEndpoints, AddAccessMethods, ObjectsOf, Docs, ListOf, MethodsOk, SynthesizedAt, WellNamed, Strip, UrlText, Sound,
         SeenAgain, MethodList, NewUrls, Fingerprint, TurnsAccept, SynthesesAreAccepted, IsUrlOf, Promotion;
    var endpoints, methods, reg, st := PartsOfPass(data, isService, allowLegacy, rt, out);
    var endpoints', methods', reg', st' := PartsOfPass(out, isService, allowLegacy, rt, again);
    AddEndpointsSound(endpoints, rt);
    AddAccessMethodsOk(reg, methods, allowLegacy, rt);
    MethodsAreListed(st);
    SoundIsDistinct(st.registry);
    SecondEndpointsAccept(st.registry.endpoints, rt);
    AddEndpointsSound(endpoints', rt);
    MirrorIsSeen(reg', st.registry);
    SecondMethodsAccept(reg', st.registry, st.methods, allowLegacy, rt);
    MethodsMatch(endpoints, reg, methods, allowLegacy, rt);
    var m := st.methods[i];
    assert st.methods[..|st.methods|] == st.methods;
    NewUrlsMember(st.methods, |st.methods|, st.registry.endpoints, Strip(UrlText(m)));
    SeenIsListed(st'.registry, reg'.endpoints, st.registry, NewUrls(st.methods, st.registry.endpoints), Strip(UrlText(m)));
    NewIsUnlisted(st, i, rt);
  }

  lemma SeenIsListed(r: Registry, again: seq<Endpoint>, reg: Registry, more: set<string>, u: string)
    requires SeenAgain(r, again, reg, more) && u in more
    ensures exists d :: d in r.endpoints && Fingerprint(d) == Some(u)
  {
    hide Mirrors, RegistryOf, OutputEndpoint, Fingerprint;
    assert r.byUrl[u] in r.endpoints;
  }

  lemma NewIsUnlisted(st: AccessState, i: nat, rt: Runtime)
    requires MethodsOk(st) && TurnsAccept(st.registry, st.methods, rt) && i < |st.methods|
    requires !WellNamed(st.methods[i], st.registry.endpoints)
    ensures !exists d :: d in st.registry.endpoints && Fingerprint(d) == Some(Strip(UrlText(st.methods[i])))
  {
    hide OutputAccess, WellNamed, Strip, UrlText, FactsOf, Promotion, NewUrls, RegistryOf, OutputEndpoint, Fingerprint;
    assert TurnAccepts(st.methods[i], st.registry, NewUrls(st.methods[..i], st.registry.endpoints), rt);
  }

  // Fixed points.

  /** The passes after the first are accepted and reach a document that a further pass returns unchanged. */
  ghost predicate Settles(out: Data, isService: bool, allowLegacy: bool, rt: Runtime) {
    exists again, third ::
      && NormalizeData(out, isService, allowLegacy, rt) == Ok(again)
      && NormalizeData(again, isService, allowLegacy, rt) == Ok(third)
      && NormalizeData(third, isService, allowLegacy, rt) == Ok(third)
  }

  /** Within three passes an accepted document reaches a fixed point, exactly when the second and the
      third pass do not reject, which the document tells. */
  lemma SettlesIff(data: Data, isService: bool, allowLegacy: bool, rt: Runtime, out: Data)
    requires rt.Lawful() && NormalizeData(data, isService, allowLegacy, rt) == Ok(out)
    ensures Settles(out, isService, allowLegacy, rt) <==>
            SecondPassAccepts(data, allowLegacy, rt) && ThirdPassAccepts(data, allowLegacy, rt)
  {
    hide NormalizeData, SecondPassAccepts, ThirdPassAccepts;
    SecondPassAcceptsIff(data, isService, allowLegacy, rt, out);
    if NormalizeData(out, isService, allowLegacy, rt).Ok? {
      var again := NormalizeData(out, isService, allowLegacy, rt).value;
      ThirdPassAcceptsIff(data, isService, allowLegacy, rt, out, again);
      if NormalizeData(again, isService, allowLegacy, rt).Ok? {
        ThirdOutputIsStable(data, isService, allowLegacy, rt, out, again, NormalizeData(again, isService, allowLegacy, rt).value);
      }
    }
  }
}
