/** `normalize_interface_data`: three dependent passes over the endpoints, access methods and ports
    of one catalog document. */
module InterfaceDocuments {
  import opened JsonValues
  import opened Wrappers
  import opened Texts
  import opened Interfaces
  import opened InterfaceFacts

  /** A list element, which should be an object. */
  datatype Item<T> = Doc(doc: T) | NotObject

  /** A field that should be a list. */
  datatype Listed<T> = Items(items: seq<Item<T>>) | NotList

  datatype Access = Access(id: Option<Json>, kind: Option<Json>, endpoint: Option<Json>, endpointId: Option<Json>,
                           exposure: Option<Json>, purpose: Option<Json>, credentials: Option<Json>, rest: map<string, Json>)

  datatype Port = Port(port: Option<Json>, transport: Option<Json>, protocol: Option<Json>, exposure: Option<Json>,
                       rest: map<string, Json>)

  datatype InterfaceField = NoInterface | NullInterface | NotInterface | InterfaceDoc(state: Option<Json>, reason: Option<Json>, rest: map<string, Json>)

  datatype Data = Data(endpoints: Option<Listed<Endpoint>>, accessMethods: Option<Listed<Access>>,
                       ports: Option<Listed<Port>>, interface_: InterfaceField, legacyInterface: Json, rest: map<string, Json>)

  function ListOf<T>(field: Option<Listed<T>>): Result<seq<Item<T>>, InterfaceError> {
    match field
    case None => Ok([])
    case Some(NotList) => Err(InterfaceError)
    case Some(Items(items)) => Ok(items)
  }

  function Docs<T>(s: seq<T>): (r: seq<Item<T>>)
    ensures |r| == |s| && forall i | 0 <= i < |s| :: r[i] == Doc(s[i])
  {
    seq(|s|, i requires 0 <= i < |s| => Doc(s[i]))
  }

  lemma OneError<T>(r: Result<T, InterfaceError>)
    ensures r.Err? ==> r == Err(InterfaceError)
  {
    if r.Err? {
      match r.error
      case InterfaceError =>
    }
  }

  // Endpoints.

  /** The endpoints kept so far, the index by URL and the used ids. */
  datatype Registry = Registry(endpoints: seq<Endpoint>, byUrl: map<string, Endpoint>, ids: set<string>)

  const EMPTY: Registry := Registry([], map[], {})

  function IdText(e: Endpoint): string {
    if Get(e.id).JText? then Get(e.id).text else ""
  }

  /** `endpoint_url_fingerprint`. */
  function Fingerprint(e: Endpoint): Option<string> {
    if Get(e.url).JText? && Get(e.url).text != "" then Some(Strip(Get(e.url).text)) else None
  }

  function Register(reg: Registry, e: Endpoint): Registry {
    Registry(reg.endpoints + [e], if Fingerprint(e).Some? then reg.byUrl[Fingerprint(e).value := e] else reg.byUrl,
             reg.ids + {IdText(e)})
  }

  function AddEndpoint(reg: Registry, item: Item<Endpoint>, rt: Runtime): Result<Registry, InterfaceError> {
    if item.NotObject? then Err(InterfaceError)
    else
      var e :- NormalizeEndpoint(item.doc, reg.ids, rt);
      if Fingerprint(e).Some? && Fingerprint(e).value in reg.byUrl then Ok(reg) else Ok(Register(reg, e))
  }

  function AddEndpoints(items: seq<Item<Endpoint>>, rt: Runtime): Result<Registry, InterfaceError> {
    if items == [] then Ok(EMPTY)
    else
      var reg :- AddEndpoints(items[..|items| - 1], rt);
      AddEndpoint(reg, items[|items| - 1], rt)
  }

  // Access methods.

  datatype AccessState = AccessState(registry: Registry, methods: seq<Access>, ids: set<string>)

  /** `_endpoint_type_for_access`. */
  function EndpointTypeFor(value: Json, rt: Runtime): string {
    var falsy := value == JNull || value == JBool(false) || value == JInt(0) || value == JReal(0.0) || value == JText("")
                 || value == JList([]) || value == JObject(map[]);
    var text := if falsy then "other" else if value.JText? then value.text else rt.show(value);
    var lowered := rt.lower(text);
    var access := if lowered == "web" || lowered == "api" then AccessAlias(lowered) else text;
    if access == "ssh" then "SSH"
    else if access == "admin_web" then "Web"
    else if access == "admin_api" then "REST API"
    else if access == "database" then "Database"
    else if access == "smb" then "SMB"
    else "TCP"
  }

  /** The endpoint document an access URL is promoted to. */
  function Promotion(raw: Access, url: string, rt: Runtime): Endpoint {
    Endpoint(None, Some(JText(EndpointTypeFor(Get(raw.kind), rt))), Some(JText(url)), None, None, None, None, None,
             Some(if raw.exposure.Some? then raw.exposure.value else JText("unknown")), Some(Get(raw.purpose)), None, None, map[])
  }

  function HostText(e: Endpoint): string {
    if e.host.Some? && e.host.value.JText? then e.host.value.text else ""
  }

  /** `_endpoint_url`. */
  function EndpointUrl(e: Endpoint): string {
    if Get(e.url).JText? then Get(e.url).text
    else (if Get(e.protocol).JText? then Get(e.protocol).text else "") + "://" + HostText(e)
         + (if Get(e.port).JInt? && Get(e.port).number >= 0 then ":" + Decimal(Get(e.port).number) else "")
  }

  function FindById(endpoints: seq<Endpoint>, id: Json): Option<Endpoint> {
    if endpoints == [] then None
    else if endpoints[0].id == Some(id) then Some(endpoints[0])
    else FindById(endpoints[1..], id)
  }

  /** How an access method reaches its endpoint: the registry afterwards, the URL if one was given,
      the endpoint id, and whether an empty legacy URL is dropped. */
  datatype Link = Link(registry: Registry, url: Option<string>, endpointId: Json, dropUrl: bool)

  function LinkOf(reg: Registry, raw: Access, allowLegacy: bool, rt: Runtime): Result<Link, InterfaceError> {
    var url, id := Get(raw.endpoint), Get(raw.endpointId);
    if allowLegacy && url.JText? && IsBlank(url.text) then Ok(Link(reg, None, id, true))
    else if url != JNull then
      var text :- RequireText(url);
      if Strip(text) in reg.byUrl then
        var known := reg.byUrl[Strip(text)];
        if id != JNull && id != JText(IdText(known)) then Err(InterfaceError)
        else Ok(Link(reg, Some(text), JText(IdText(known)), false))
      else
        var e :- NormalizeEndpoint(Promotion(raw, text, rt), reg.ids, rt);
        Ok(Link(Register(reg, e), Some(text), JText(IdText(e)), false))
    else if id != JNull then
      var text :- RequireIdentifier(id);
      if text in reg.ids then Ok(Link(reg, None, id, false)) else Err(InterfaceError)
    else Ok(Link(reg, None, JNull, false))
  }

  /** `_validate_credential_references`. */
  predicate CredentialsValid(credentials: Option<Json>) {
    var value := Get(credentials);
    value == JNull
    || (value.JList? && forall r | r in value.items ::
          r.JText? && "credential_reference:" <= r.text && |r.text| > |"credential_reference:"|)
  }

  function AccessIdOf(raw: Access, kind: string, endpointId: Json, used: set<string>, rt: Runtime)
    : (r: Result<string, InterfaceError>)
    ensures r.Ok? ==> r.value !in used && IsIdentifier(r.value)
  {
    hide IsIdentifier, UniqueIdentifier;
    FallbacksAreIdentifiers();
    if Get(raw.id) == JNull then
      if endpointId != JNull && !endpointId.JText? then Err(InterfaceError)
      else Ok(UniqueIdentifier(JoinParts([kind, if endpointId.JText? then endpointId.text else ""]), used, "access", rt.lower))
    else
      var text :- RequireIdentifier(Get(raw.id));
      if text in used then Err(InterfaceError) else Ok(text)
  }

  function WriteAccess(raw: Access, link: Link, kind: string, id: string, target: Option<Endpoint>): Access {
    Access(Some(JText(id)), Some(JText(kind)),
           if link.endpointId != JNull && target.Some?
           then Some(JText(if link.url.Some? then link.url.value else EndpointUrl(target.value)))
           else if link.dropUrl then None else raw.endpoint,
           if link.endpointId != JNull then Some(link.endpointId) else raw.endpointId,
           raw.exposure, raw.purpose, raw.credentials, raw.rest)
  }

  function AddAccess(st: AccessState, item: Item<Access>, allowLegacy: bool, rt: Runtime): Result<AccessState, InterfaceError> {
    if item.NotObject? then Err(InterfaceError)
    else
      var raw := item.doc;
      var link :- LinkOf(st.registry, raw, allowLegacy, rt);
      var kind :- NormalizeAccessType(Get(raw.kind), rt);
      var id :- AccessIdOf(raw, kind, link.endpointId, st.ids, rt);
      var target := FindById(link.registry.endpoints, link.endpointId);
      if link.endpointId != JNull && target.None? then Err(InterfaceError)
      else if !CredentialsValid(raw.credentials) then Err(InterfaceError)
      else Ok(AccessState(link.registry, st.methods + [WriteAccess(raw, link, kind, id, target)], st.ids + {id}))
  }

  function AddAccessMethods(reg: Registry, items: seq<Item<Access>>, allowLegacy: bool, rt: Runtime)
    : Result<AccessState, InterfaceError>
  {
    if items == [] then Ok(AccessState(reg, [], {}))
    else
      var st :- AddAccessMethods(reg, items[..|items| - 1], allowLegacy, rt);
      AddAccess(st, items[|items| - 1], allowLegacy, rt)
  }

  // Ports.

  type Socket = (int, string)

  function SocketsOf(endpoints: seq<Endpoint>): set<Socket> {
    set e | e in endpoints && Get(e.port).JInt? && Get(e.transport).JText? :: (Get(e.port).number, Get(e.transport).text)
  }

  /** `normalize_port`. */
  function NormalizePort(raw: Port): Result<Port, InterfaceError> {
    if raw.port.None? then Err(InterfaceError)
    else
      var port :- RequirePort(raw.port.value);
      var stated := if raw.transport.Some? then raw.transport.value
                    else if raw.protocol.Some? then raw.protocol.value else JText("tcp");
      var transport :- RequireMember(stated, {"tcp", "udp"});
      var exposure :- ExposureOf(raw.exposure);
      Ok(Port(Some(JInt(port)), Some(JText(transport)), None, Some(JText(exposure)), raw.rest))
  }

  function SocketOf(p: Port): Socket {
    (if Get(p.port).JInt? then Get(p.port).number else 0, if Get(p.transport).JText? then Get(p.transport).text else "")
  }

  datatype PortState = PortState(ports: seq<Port>, seen: set<Socket>)

  function AddPort(st: PortState, item: Item<Port>, taken: set<Socket>): Result<PortState, InterfaceError> {
    if item.NotObject? then Err(InterfaceError)
    else
      var p :- NormalizePort(item.doc);
      if SocketOf(p) in taken || SocketOf(p) in st.seen then Ok(st)
      else Ok(PortState(st.ports + [p], st.seen + {SocketOf(p)}))
  }

  function AddPorts(items: seq<Item<Port>>, taken: set<Socket>): Result<PortState, InterfaceError> {
    if items == [] then Ok(PortState([], {}))
    else
      var st :- AddPorts(items[..|items| - 1], taken);
      AddPort(st, items[|items| - 1], taken)
  }

  // The service interface and the whole document.

  const STATES: set<string> := {"available", "not_applicable", "incomplete"}

  function LegacyMember(legacy: Json, key: string): Json {
    if legacy.JObject? && key in legacy.fields then legacy.fields[key] else JNull
  }

  /** `_normalize_service_interface`. */
  function ServiceInterface(data: Data, hasEndpoints: bool, rt: Runtime): Result<InterfaceField, InterfaceError> {
    match data.interface_
    case NotInterface => Err(InterfaceError)
    case InterfaceDoc(state, _, _) =>
      var text :- RequireMember(Get(state), STATES);
      if hasEndpoints != (text == "available") then Err(InterfaceError) else Ok(data.interface_)
    case _ =>
      if hasEndpoints then Ok(InterfaceDoc(Some(JText("available")), None, map[]))
      else if LegacyMember(data.legacyInterface, "endpoint_required") == JBool(false) then
        var kind := LegacyMember(data.legacyInterface, "type");
        var falsy := kind == JNull || kind == JBool(false) || kind == JInt(0) || kind == JReal(0.0) || kind == JText("")
                     || kind == JList([]) || kind == JObject(map[]);
        var reason := if falsy then "internal service" else if kind.JText? then kind.text else rt.show(kind);
        Ok(InterfaceDoc(Some(JText("not_applicable")), Some(JText(reason)), map[]))
      else Ok(InterfaceDoc(Some(JText("incomplete")), None, map[]))
  }

  /** The specification of `normalize_interface_data`. */
  function NormalizeData(data: Data, isService: bool, allowLegacy: bool, rt: Runtime): Result<Data, InterfaceError> {
    var rawEndpoints :- ListOf(data.endpoints);
    var reg :- AddEndpoints(rawEndpoints, rt);
    var rawMethods :- ListOf(data.accessMethods);
    var st :- AddAccessMethods(reg, rawMethods, allowLegacy, rt);
    var endpoints := st.registry.endpoints;
    var rawPorts :- ListOf(data.ports);
    var ports :- AddPorts(rawPorts, SocketsOf(endpoints));
    var interface_ :- (if isService then ServiceInterface(data, endpoints != [], rt) else Ok(data.interface_));
    Ok(Data(if rawEndpoints != [] || rawMethods != [] || data.endpoints.Some? then Some(Items(Docs(endpoints))) else None,
            if data.accessMethods.Some? then Some(Items(Docs(st.methods))) else None,
            if data.ports.Some? then Some(Items(Docs(ports.ports))) else None,
            interface_, data.legacyInterface, data.rest))
  }

  // The loops.

  datatype Diagnostic =
    | DuplicateEndpointUrl | EmptyAccessEndpointRemoved | AccessEndpointPromoted | AccessEndpointDeduplicated
    | AccessIdAdded | EndpointPortDuplicate | DuplicatePort | ServiceInterfaceIncomplete | InterfaceNormalized

  method CollectEndpoints(items: seq<Item<Endpoint>>, rt: Runtime)
    returns (r: Result<Registry, InterfaceError>, notes: seq<Diagnostic>)
    ensures r == AddEndpoints(items, rt)
  {
    hide NormalizeEndpoint, Fingerprint;
    var endpoints: seq<Endpoint>, byUrl: map<string, Endpoint>, ids: set<string> := [], map[], {};
    notes := [];
    for i := 0 to |items|
      invariant AddEndpoints(items[..i], rt) == Ok(Registry(endpoints, byUrl, ids))
    {
      assert items[..i + 1][..i] == items[..i];
      if items[i].NotObject? {
        EndpointErrorStays(items, i + 1, rt);
        return Err(InterfaceError), notes;
      }
      var normalized := NormalizeEndpoint(items[i].doc, ids, rt);
      if normalized.Err? {
        EndpointErrorStays(items, i + 1, rt);
        return Err(InterfaceError), notes;
      }
      var e := normalized.value;
      var fingerprint := Fingerprint(e);
      if fingerprint.Some? && fingerprint.value in byUrl {
        notes := notes + [DuplicateEndpointUrl];
        continue;
      }
      endpoints, ids := endpoints + [e], ids + {IdText(e)};
      if fingerprint.Some? {
        byUrl := byUrl[fingerprint.value := e];
      }
    }
    assert items[..|items|] == items;
    return Ok(Registry(endpoints, byUrl, ids)), notes;
  }

  lemma {:induction false} EndpointErrorStays(items: seq<Item<Endpoint>>, n: nat, rt: Runtime)
    requires n <= |items| && AddEndpoints(items[..n], rt).Err?
    ensures AddEndpoints(items, rt) == Err(InterfaceError)
    decreases |items|
  {
    hide AddEndpoint;
    if n == |items| {
      assert items[..n] == items;
    } else {
      assert items[..|items| - 1][..n] == items[..n];
      EndpointErrorStays(items[..|items| - 1], n, rt);
    }
    OneError(AddEndpoints(items, rt));
  }

  /** A promoted endpoint is indexed under the stripped URL it was promoted from. */
  lemma PromotedFingerprint(raw: Access, text: string, used: set<string>, rt: Runtime, e: Endpoint)
    requires !IsBlank(text) && NormalizeEndpoint(Promotion(raw, text, rt), used, rt) == Ok(e)
    ensures Fingerprint(e) == Some(Strip(text))
  {
    hide ParseUrl, NormalizeType, PathOf, ExposureOf, UrlProtocol, HostOf, IdOf, IsIdentifier, FactsOf, EndpointTypeFor, Strip;
    var p := Promotion(raw, text, rt);
    var f, id := NormalizedParts(p, used, rt, e);
    UrlAgain(p, f, id, rt);
    StripAgain(text);
  }

  /** The rejection of one method rejects the list. */
  lemma AccessRejected(reg: Registry, items: seq<Item<Access>>, i: nat, st: AccessState, allowLegacy: bool, rt: Runtime)
    requires i < |items| && AddAccessMethods(reg, items[..i], allowLegacy, rt) == Ok(st)
    requires AddAccess(st, items[i], allowLegacy, rt).Err?
    ensures AddAccessMethods(reg, items, allowLegacy, rt) == Err(InterfaceError)
  {
    hide AddAccess;
    assert items[..i + 1][..i] == items[..i];
    AccessErrorStays(reg, items, i + 1, allowLegacy, rt);
  }

  lemma AccessTaken(reg: Registry, items: seq<Item<Access>>, i: nat, st: AccessState, allowLegacy: bool, rt: Runtime)
    requires i < |items| && AddAccessMethods(reg, items[..i], allowLegacy, rt) == Ok(st)
    ensures AddAccessMethods(reg, items[..i + 1], allowLegacy, rt) == AddAccess(st, items[i], allowLegacy, rt)
  {
    hide AddAccess;
    assert items[..i + 1][..i] == items[..i];
  }

  /** How one access method reaches its endpoint: an empty legacy URL is dropped, a known URL reuses its
      endpoint, an unknown one becomes an endpoint, and an id alone must be in use. */
  method LinkAccess(raw: Access, endpoints: seq<Endpoint>, byUrl: map<string, Endpoint>, ids: set<string>, allowLegacy: bool, rt: Runtime)
    returns (r: Result<Link, InterfaceError>, notes: seq<Diagnostic>)
    ensures r == LinkOf(Registry(endpoints, byUrl, ids), raw, allowLegacy, rt)
  {
    hide NormalizeEndpoint, Strip, IsIdentifier, Promotion, Fingerprint, IdText;
    var url, id := Get(raw.endpoint), Get(raw.endpointId);
    notes := [];
    if allowLegacy && url.JText? && IsBlank(url.text) {
      return Ok(Link(Registry(endpoints, byUrl, ids), None, id, true)), [EmptyAccessEndpointRemoved];
    }
    if url != JNull {
      var text := RequireText(url);
      if text.Err? {
        return Err(InterfaceError), notes;
      }
      var fingerprint := Strip(text.value);
      if fingerprint !in byUrl {
        var promoted := NormalizeEndpoint(Promotion(raw, text.value, rt), ids, rt);
        if promoted.Err? {
          OneError(promoted);
          return Err(InterfaceError), notes;
        }
        var e := promoted.value;
        PromotedFingerprint(raw, text.value, ids, rt, e);
        return Ok(Link(Registry(endpoints + [e], byUrl[fingerprint := e], ids + {IdText(e)}), Some(text.value), JText(IdText(e)), false)),
               [AccessEndpointPromoted];
      }
      var known := byUrl[fingerprint];
      if id != JNull && id != JText(IdText(known)) {
        return Err(InterfaceError), notes;
      }
      return Ok(Link(Registry(endpoints, byUrl, ids), Some(text.value), JText(IdText(known)), false)), [AccessEndpointDeduplicated];
    }
    if id != JNull {
      var text := RequireIdentifier(id);
      if text.Err? || text.value !in ids {
        return Err(InterfaceError), notes;
      }
      return Ok(Link(Registry(endpoints, byUrl, ids), None, id, false)), notes;
    }
    return Ok(Link(Registry(endpoints, byUrl, ids), None, JNull, false)), notes;
  }

  method CollectAccessMethods(reg: Registry, items: seq<Item<Access>>, allowLegacy: bool, rt: Runtime)
    returns (r: Result<AccessState, InterfaceError>, notes: seq<Diagnostic>)
    ensures r == AddAccessMethods(reg, items, allowLegacy, rt)
  {
    hide LinkOf, NormalizeAccessType, AccessIdOf, FindById, CredentialsValid, EndpointUrl, AddAccessMethods;
    var endpoints, byUrl, endpointIds := reg.endpoints, reg.byUrl, reg.ids;
    var methods: seq<Access>, ids: set<string> := [], {};
    notes := [];
    NoAccessYet(reg, items, allowLegacy, rt);
    for i := 0 to |items|
      invariant AddAccessMethods(reg, items[..i], allowLegacy, rt) == Ok(AccessState(Registry(endpoints, byUrl, endpointIds), methods, ids))
    {
      ghost var st := AccessState(Registry(endpoints, byUrl, endpointIds), methods, ids);
      AccessTaken(reg, items, i, st, allowLegacy, rt);
      if AddAccess(st, items[i], allowLegacy, rt).Err? {
        AccessRejected(reg, items, i, st, allowLegacy, rt);
      }
      if items[i].NotObject? {
        return Err(InterfaceError), notes;
      }
      var raw := items[i].doc;
      var linked, linkNotes := LinkAccess(raw, endpoints, byUrl, endpointIds, allowLegacy, rt);
      if linked.Err? {
        return Err(InterfaceError), notes;
      }
      var link := linked.value;
      var kind := NormalizeAccessType(Get(raw.kind), rt);
      if kind.Err? {
        return Err(InterfaceError), notes;
      }
      var id := AccessIdOf(raw, kind.value, link.endpointId, ids, rt);
      if id.Err? {
        return Err(InterfaceError), notes;
      }
      var access := raw.(id := Some(JText(id.value)), kind := Some(JText(kind.value)));
      if link.dropUrl {
        access := access.(endpoint := None);
      }
      if link.endpointId != JNull {
        var target := FindById(link.registry.endpoints, link.endpointId);
        if target.None? {
          return Err(InterfaceError), notes;
        }
        access := access.(endpointId := Some(link.endpointId),
                          endpoint := Some(JText(if link.url.Some? then link.url.value else EndpointUrl(target.value))));
      }
      if !CredentialsValid(access.credentials) {
        return Err(InterfaceError), notes;
      }
      notes := notes + linkNotes + (if Get(raw.id) == JNull then [AccessIdAdded] else []);
      endpoints, byUrl, endpointIds := link.registry.endpoints, link.registry.byUrl, link.registry.ids;
      methods, ids := methods + [access], ids + {id.value};
    }
    assert items[..|items|] == items;
    return Ok(AccessState(Registry(endpoints, byUrl, endpointIds), methods, ids)), notes;
  }

  lemma NoAccessYet(reg: Registry, items: seq<Item<Access>>, allowLegacy: bool, rt: Runtime)
    ensures AddAccessMethods(reg, items[..0], allowLegacy, rt) == Ok(AccessState(reg, [], {}))
  {
  }

  lemma {:induction false} AccessErrorStays(reg: Registry, items: seq<Item<Access>>, n: nat, allowLegacy: bool, rt: Runtime)
    requires n <= |items| && AddAccessMethods(reg, items[..n], allowLegacy, rt).Err?
    ensures AddAccessMethods(reg, items, allowLegacy, rt) == Err(InterfaceError)
    decreases |items|
  {
    hide AddAccess;
    if n == |items| {
      assert items[..n] == items;
    } else {
      assert items[..|items| - 1][..n] == items[..n];
      AccessErrorStays(reg, items[..|items| - 1], n, allowLegacy, rt);
    }
    OneError(AddAccessMethods(reg, items, allowLegacy, rt));
  }

  method CollectPorts(items: seq<Item<Port>>, taken: set<Socket>)
    returns (r: Result<PortState, InterfaceError>, notes: seq<Diagnostic>)
    ensures r == AddPorts(items, taken)
  {
    hide NormalizePort, SocketOf;
    var ports: seq<Port>, seen: set<Socket> := [], {};
    notes := [];
    for i := 0 to |items|
      invariant AddPorts(items[..i], taken) == Ok(PortState(ports, seen))
    {
      assert items[..i + 1][..i] == items[..i];
      if items[i].NotObject? || NormalizePort(items[i].doc).Err? {
        PortErrorStays(items, i + 1, taken);
        return Err(InterfaceError), notes;
      }
      var p := NormalizePort(items[i].doc).value;
      if SocketOf(p) in taken {
        notes := notes + [EndpointPortDuplicate];
        continue;
      }
      if SocketOf(p) in seen {
        notes := notes + [DuplicatePort];
        continue;
      }
      ports, seen := ports + [p], seen + {SocketOf(p)};
    }
    assert items[..|items|] == items;
    return Ok(PortState(ports, seen)), notes;
  }

  lemma {:induction false} PortErrorStays(items: seq<Item<Port>>, n: nat, taken: set<Socket>)
    requires n <= |items| && AddPorts(items[..n], taken).Err?
    ensures AddPorts(items, taken) == Err(InterfaceError)
    decreases |items|
  {
    hide AddPort;
    if n == |items| {
      assert items[..n] == items;
    } else {
      assert items[..|items| - 1][..n] == items[..n];
      PortErrorStays(items[..|items| - 1], n, taken);
    }
    OneError(AddPorts(items, taken));
  }

  /** `normalize_interface_data`: the canonical document, and whether it differs from the given one. */
  method NormalizeInterfaceData(data: Data, isService: bool, allowLegacy: bool, rt: Runtime)
    returns (r: Result<Data, InterfaceError>, changed: bool)
    ensures r == NormalizeData(data, isService, allowLegacy, rt)
    ensures r.Ok? ==> (changed <==> r.value != data)
  {
    hide AddEndpoints, AddAccessMethods, AddPorts, ServiceInterface, SocketsOf, Docs;
    changed := false;
    var rawEndpoints := ListOf(data.endpoints);
    if rawEndpoints.Err? { return Err(rawEndpoints.error), changed; }
    var reg, notes := CollectEndpoints(rawEndpoints.value, rt);
    if reg.Err? { return Err(reg.error), changed; }
    var rawMethods := ListOf(data.accessMethods);
    if rawMethods.Err? { return Err(rawMethods.error), changed; }
    var st, accessNotes := CollectAccessMethods(reg.value, rawMethods.value, allowLegacy, rt);
    if st.Err? { return Err(st.error), changed; }
    var endpoints := st.value.registry.endpoints;
    var rawPorts := ListOf(data.ports);
    if rawPorts.Err? { return Err(rawPorts.error), changed; }
    var ports, portNotes := CollectPorts(rawPorts.value, SocketsOf(endpoints));
    if ports.Err? { return Err(ports.error), changed; }
    var interface_ := if isService then ServiceInterface(data, endpoints != [], rt) else Ok(data.interface_);
    if interface_.Err? { return Err(interface_.error), changed; }
    var normalized := data.(interface_ := interface_.value);
    if rawEndpoints.value != [] || rawMethods.value != [] || data.endpoints.Some? {
      normalized := normalized.(endpoints := Some(Items(Docs(endpoints))));
    }
    if data.accessMethods.Some? {
      normalized := normalized.(accessMethods := Some(Items(Docs(st.value.methods))));
    }
    if data.ports.Some? {
      normalized := normalized.(ports := Some(Items(Docs(ports.value.ports))));
    }
    var diagnostics := notes + accessNotes + portNotes;
    if isService && (data.interface_.NoInterface? || data.interface_.NullInterface?)
       && interface_.value.InterfaceDoc? && interface_.value.state == Some(JText("incomplete")) {
      diagnostics := diagnostics + [ServiceInterfaceIncomplete];
    }
    if normalized == data {
      diagnostics := [];
    } else if diagnostics == [] {
      diagnostics := [InterfaceNormalized];
    }
    return Ok(normalized), diagnostics != [];
  }
}
