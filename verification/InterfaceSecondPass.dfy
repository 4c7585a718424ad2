/** The second pass over a canonical interface document. */
module InterfaceSecondPass {
  import opened JsonValues
  import opened Wrappers
  import opened Texts
  import opened Interfaces
  import opened InterfaceFacts
  import opened InterfaceDocuments
  import opened InterfaceCanonical

  // Endpoints.

  /** A second normalization may change an endpoint, but neither its id nor its URL. */
  lemma EndpointAgainShape(e: Endpoint, used: set<string>, rt: Runtime, d: Endpoint)
    requires OutputEndpoint(e) && NormalizeEndpoint(e, used, rt) == Ok(d)
    ensures IdText(d) == IdText(e) && Fingerprint(d) == Fingerprint(e)
  {
    hide ParseUrl, NormalizeType, PathOf, ExposureOf, UrlProtocol, HostOf, IsIdentifier, FactsOf, Strip, UniqueIdentifier, IsProtocol;
    var f, id := NormalizedParts(e, used, rt, d);
    IdAgain(IdText(e), f.kind, f.port, f.host, used, rt);
    UrlAgain(e, f, id, rt);
  }

  lemma UsedIdsDoNotMatter(e: Endpoint, used: set<string>, rt: Runtime)
    requires OutputEndpoint(e) && IdText(e) !in used
    ensures NormalizeEndpoint(e, used, rt) == NormalizeEndpoint(e, {}, rt)
  {
    hide FactsOf, IdOf, IsIdentifier, Strip, IsProtocol;
    if FactsOf(e, rt).Ok? {
      var f := FactsOf(e, rt).value;
      IdAgain(IdText(e), f.kind, f.port, f.host, used, rt);
      IdAgain(IdText(e), f.kind, f.port, f.host, {}, rt);
    }
  }

  ghost predicate DistinctList(s: seq<Endpoint>) {
    && (forall e | e in s :: OutputEndpoint(e))
    && (forall i, j | 0 <= i < j < |s| :: IdText(s[i]) != IdText(s[j]))
    && (forall i, j | 0 <= i < j < |s| && Fingerprint(s[i]).Some? :: Fingerprint(s[i]) != Fingerprint(s[j]))
  }

  lemma SoundIsDistinct(reg: Registry)
    requires Sound(reg)
    ensures DistinctList(reg.endpoints)
  {
    hide OutputEndpoint, Fingerprint, IdText, RegistryOf;
    var s := reg.endpoints;
    forall i, j | 0 <= i < j < |s| && Fingerprint(s[i]).Some? ensures Fingerprint(s[i]) != Fingerprint(s[j]) {
      assert s[i] in s && s[j] in s;
    }
  }

  ghost predicate KeysOf(reg: Registry, s: seq<Endpoint>) {
    && (forall id :: id in reg.ids <==> exists e :: e in s && IdText(e) == id)
    && (forall u :: u in reg.byUrl <==> exists e :: e in s && Fingerprint(e) == Some(u))
  }

  lemma KeysGrow(reg: Registry, s: seq<Endpoint>, d: Endpoint, e: Endpoint)
    requires KeysOf(reg, s) && IdText(d) == IdText(e) && Fingerprint(d) == Fingerprint(e)
    ensures KeysOf(Register(reg, d), s + [e])
  {
    hide IdText, Fingerprint;
    assert forall x :: x in s + [e] <==> x in s || x == e;
  }

  ghost predicate AllFixed(s: seq<Endpoint>, rt: Runtime) {
    forall e | e in s :: IsFixed(e, rt)
  }

  lemma FreshInPrefix(s: seq<Endpoint>, n: nat, reg: Registry)
    requires DistinctList(s) && n < |s| && KeysOf(reg, s[..n])
    ensures IdText(s[n]) !in reg.ids && (Fingerprint(s[n]).Some? ==> Fingerprint(s[n]).value !in reg.byUrl)
  {
    hide IdText, Fingerprint, OutputEndpoint;
    forall e | e in s[..n] ensures IdText(e) != IdText(s[n]) && (Fingerprint(e).Some? ==> Fingerprint(e) != Fingerprint(s[n])) {
      var i :| 0 <= i < n && s[..n][i] == e;
      assert s[i] == e;
    }
  }

  lemma DocsPrefix<T>(s: seq<T>)
    requires s != []
    ensures Docs(s)[..|s| - 1] == Docs(s[..|s| - 1]) && Docs(s)[|s| - 1] == Doc(s[|s| - 1])
  {
  }

  lemma EndpointListSplits(s: seq<Endpoint>, front: seq<Endpoint>, last: Endpoint, rt: Runtime)
    requires s != [] && front == s[..|s| - 1] && last == s[|s| - 1] && DistinctList(s)
    ensures s == front + [last] && DistinctList(front) && OutputEndpoint(last)
    ensures AllFixed(s, rt) <==> AllFixed(front, rt) && IsFixed(last, rt)
  {
    hide OutputEndpoint, IdText, Fingerprint, IsFixed;
    assert s == front + [last];
    assert forall e :: e in s <==> e in front || e == last;
  }

  lemma EndpointStep(s: seq<Endpoint>, front: seq<Endpoint>, last: Endpoint, reg: Registry, rt: Runtime)
    requires DistinctList(s) && s == front + [last] && OutputEndpoint(last) && KeysOf(reg, front)
    ensures var r := AddEndpoint(reg, Doc(last), rt);
            r.Ok? ==> exists d :: r.value == Register(reg, d) && KeysOf(r.value, s) && (d == last ==> IsFixed(last, rt))
    ensures IsFixed(last, rt) ==> AddEndpoint(reg, Doc(last), rt) == Ok(Register(reg, last))
  {
    hide NormalizeEndpoint, OutputEndpoint, Fingerprint, IdText, KeysOf, DistinctList;
    assert s[..|front|] == front && s[|front|] == last;
    FreshInPrefix(s, |front|, reg);
    UsedIdsDoNotMatter(last, reg.ids, rt);
    if NormalizeEndpoint(last, reg.ids, rt).Ok? {
      var d := NormalizeEndpoint(last, reg.ids, rt).value;
      EndpointAgainShape(last, reg.ids, rt, d);
      KeysGrow(reg, front, d, last);
    }
  }

  /** The second pass keeps the number of endpoints; it keeps the endpoints exactly when each is fixed. */
  lemma {:induction false} SecondEndpoints(s: seq<Endpoint>, rt: Runtime)
    requires DistinctList(s)
    ensures AllFixed(s, rt) ==> AddEndpoints(Docs(s), rt) == Ok(RegistryOf(s))
    ensures var r := AddEndpoints(Docs(s), rt);
            r.Ok? ==> |r.value.endpoints| == |s| && KeysOf(r.value, s) && (r.value.endpoints == s ==> AllFixed(s, rt))
  {
    hide AddEndpoint, RegistryOf, OutputEndpoint, KeysOf, DistinctList, IsFixed, AllFixed;
    if s == [] {
      NoEndpoints(rt);
    } else {
      var front, last := s[..|s| - 1], s[|s| - 1];
      EndpointListSplits(s, front, last, rt);
      DocsPrefix(s);
      SecondEndpoints(front, rt);
      RegistryStep(front, last);
      if AddEndpoints(Docs(front), rt).Ok? {
        var reg := AddEndpoints(Docs(front), rt).value;
        EndpointStep(s, front, last, reg, rt);
        var next := AddEndpoint(reg, Doc(last), rt);
        if next.Ok? {
          var d :| next.value == Register(reg, d) && KeysOf(next.value, s) && (d == last ==> IsFixed(last, rt));
          SameFrontSameLast(reg.endpoints, d, front, last);
        }
      }
    }
  }

  lemma SameFrontSameLast(a: seq<Endpoint>, d: Endpoint, b: seq<Endpoint>, e: Endpoint)
    ensures |a| == |b| && a + [d] == b + [e] ==> a == b && d == e
  {
    if |a| == |b| && a + [d] == b + [e] {
      assert (a + [d])[..|a|] == a && (b + [e])[..|b|] == b;
      assert (a + [d])[|a|] == d && (b + [e])[|b|] == e;
    }
  }

  lemma RegistryStep(front: seq<Endpoint>, last: Endpoint)
    ensures RegistryOf(front + [last]) == Register(RegistryOf(front), last)
  {
    assert (front + [last])[..|front|] == front;
  }

  lemma NoEndpoints(rt: Runtime)
    ensures RegistryOf([]) == EMPTY && KeysOf(EMPTY, []) && AllFixed([], rt)
  {
  }

  // Access methods.

  /** The method names no endpoint, or one that carries a URL. */
  predicate WellNamed(m: Access, endpoints: seq<Endpoint>) {
    Get(m.endpointId) == JNull || exists e :: e in endpoints && e.id == m.endpointId && Carries(e)
  }

  lemma SettledLink(reg: Registry, m: Access, allowLegacy: bool, rt: Runtime)
    requires Sound(reg) && OutputAccess(m, reg) && WellNamed(m, reg.endpoints)
    ensures LinkOf(reg, m, allowLegacy, rt).Ok?
    ensures var link := LinkOf(reg, m, allowLegacy, rt).value;
            && link.registry == reg && !link.dropUrl && link.endpointId == Get(m.endpointId)
            && (link.endpointId != JNull ==> link.url.Some? && m.endpoint == Some(JText(link.url.value)))
  {
    hide IsIdentifier, Strip, IsBlank, CredentialsValid, EndpointUrl, RegistryOf, OutputEndpoint, Fingerprint, NormalizeEndpoint;
    if Get(m.endpointId) != JNull {
      var e :| e in reg.endpoints && Names(m, e, reg);
      var d :| d in reg.endpoints && d.id == m.endpointId && Carries(d);
      SameIdSameEndpoint(reg, d, e);
      HasId(e);
    }
  }

  lemma UnsettledLink(reg: Registry, m: Access, allowLegacy: bool, rt: Runtime)
    requires Sound(reg) && OutputAccess(m, reg) && !WellNamed(m, reg.endpoints)
    ensures LinkOf(reg, m, allowLegacy, rt).Ok? ==>
              |LinkOf(reg, m, allowLegacy, rt).value.registry.endpoints| == |reg.endpoints| + 1
  {
    hide IsIdentifier, Strip, IsBlank, CredentialsValid, EndpointUrl, RegistryOf, NormalizeEndpoint, Promotion;
    var e :| e in reg.endpoints && Names(m, e, reg);
    var text := m.endpoint.value.text;
    assert !Carries(e);
    if Strip(text) in reg.byUrl {
      var known := reg.byUrl[Strip(text)];
      if known.id == e.id {
        SameIdSameEndpoint(reg, known, e);
      }
      HasId(known);
      HasId(e);
    }
  }

  /** One method on the second pass. */
  lemma AccessAgain(st: AccessState, m: Access, allowLegacy: bool, rt: Runtime)
    requires rt.Lawful() && Sound(st.registry) && OutputAccess(m, st.registry)
    requires Get(m.id).JText? && Get(m.id).text !in st.ids
    ensures WellNamed(m, st.registry.endpoints) ==>
              AddAccess(st, Doc(m), allowLegacy, rt) == Ok(AccessState(st.registry, st.methods + [m], st.ids + {Get(m.id).text}))
    ensures !WellNamed(m, st.registry.endpoints) && AddAccess(st, Doc(m), allowLegacy, rt).Ok? ==>
              |AddAccess(st, Doc(m), allowLegacy, rt).value.registry.endpoints| > |st.registry.endpoints|
  {
    hide LinkOf, NormalizeAccessType, AccessIdOf, FindById, CredentialsValid, Sound, IsIdentifier, Names, Carries;
    if WellNamed(m, st.registry.endpoints) {
      SettledLink(st.registry, m, allowLegacy, rt);
      var link := LinkOf(st.registry, m, allowLegacy, rt).value;
      AccessTypeAgain(m.kind.value.text, rt);
      AccessIdAgain(m, m.kind.value.text, link.endpointId, st.ids, rt);
      FindByIdFinds(st.registry.endpoints, link.endpointId);
      var target := FindById(st.registry.endpoints, link.endpointId);
      if link.endpointId != JNull {
        NamedExists(m, st.registry);
      }
      assert WriteAccess(m, link, m.kind.value.text, m.id.value.text, target) == m;
    } else {
      UnsettledLink(st.registry, m, allowLegacy, rt);
    }
  }

  lemma NamedExists(m: Access, reg: Registry)
    requires OutputAccess(m, reg) && Get(m.endpointId) != JNull
    ensures exists e :: e in reg.endpoints && e.id == Some(Get(m.endpointId))
  {
    hide IsIdentifier, Strip, IsBlank, CredentialsValid, EndpointUrl;
    var e :| e in reg.endpoints && Names(m, e, reg);
  }

  lemma AccessTypeAgain(t: string, rt: Runtime)
    requires rt.Lawful() && t in ACCESS_TYPES
    ensures NormalizeAccessType(JText(t), rt) == Ok(t)
  {
    hide Strip, AccessAlias;
    AccessTypesAreFixed(t);
  }

  lemma AccessIdAgain(m: Access, kind: string, endpointId: Json, used: set<string>, rt: Runtime)
    requires Get(m.id).JText? && IsIdentifier(Get(m.id).text) && Get(m.id).text !in used
    ensures AccessIdOf(m, kind, endpointId, used, rt) == Ok(Get(m.id).text)
  {
    hide IsIdentifier, UniqueIdentifier;
    IdentifierIsText(Get(m.id).text);
  }

  ghost predicate MethodList(reg: Registry, s: seq<Access>) {
    && (forall m | m in s :: OutputAccess(m, reg))
    && (forall i, j | 0 <= i < j < |s| :: Get(s[i].id) != Get(s[j].id))
  }

  ghost predicate AllWellNamed(s: seq<Access>, endpoints: seq<Endpoint>) {
    forall m | m in s :: WellNamed(m, endpoints)
  }

  ghost predicate IdsOf(ids: set<string>, s: seq<Access>) {
    forall id :: id in ids <==> exists m :: m in s && Get(m.id) == JText(id)
  }

  /** What the second pass over a list of methods gives: the same list when all are well named, and
      another endpoint otherwise. */
  ghost predicate IsSecondPass(reg: Registry, s: seq<Access>, r: Result<AccessState, InterfaceError>) {
    if AllWellNamed(s, reg.endpoints) then r.Ok? && r.value.registry == reg && r.value.methods == s && IdsOf(r.value.ids, s)
    else r.Ok? ==> |r.value.registry.endpoints| > |reg.endpoints|
  }

  lemma OneMethodMore(reg: Registry, front: seq<Access>, last: Access, allowLegacy: bool, rt: Runtime)
    requires rt.Lawful() && Sound(reg) && MethodList(reg, front + [last]) && OutputAccess(last, reg)
    requires AddAccessMethods(reg, Docs(front), allowLegacy, rt).Ok?
    requires IsSecondPass(reg, front, AddAccessMethods(reg, Docs(front), allowLegacy, rt))
    requires AllWellNamed(front + [last], reg.endpoints) <==> AllWellNamed(front, reg.endpoints) && WellNamed(last, reg.endpoints)
    ensures IsSecondPass(reg, front + [last], AddAccess(AddAccessMethods(reg, Docs(front), allowLegacy, rt).value, Doc(last), allowLegacy, rt))
  {
    hide AddAccess, OutputAccess, Sound, WellNamed, AddAccessMethods, AllWellNamed;
    var st := AddAccessMethods(reg, Docs(front), allowLegacy, rt).value;
    if AllWellNamed(front, reg.endpoints) {
      OutputId(last, reg);
      LastMethodFresh(front, last);
      AccessAgain(st, last, allowLegacy, rt);
    } else {
      StillMore(reg, front, last, allowLegacy, rt);
    }
  }

  lemma {:induction false} SecondMethods(reg: Registry, s: seq<Access>, allowLegacy: bool, rt: Runtime)
    requires rt.Lawful() && Sound(reg) && MethodList(reg, s)
    ensures IsSecondPass(reg, s, AddAccessMethods(reg, Docs(s), allowLegacy, rt))
  {
    hide AddAccess, OutputAccess, Sound, WellNamed, MethodList;
    if s != [] {
      var front, last := s[..|s| - 1], s[|s| - 1];
      MethodListSplits(reg, s, front, last);
      DocsPrefix(s);
      SecondMethods(reg, front, allowLegacy, rt);
      if AddAccessMethods(reg, Docs(front), allowLegacy, rt).Ok? {
        OneMethodMore(reg, front, last, allowLegacy, rt);
      }
    }
  }

  lemma StillMore(reg: Registry, front: seq<Access>, last: Access, allowLegacy: bool, rt: Runtime)
    requires rt.Lawful() && Sound(reg) && AddAccessMethods(reg, Docs(front), allowLegacy, rt).Ok?
    ensures var r := AddAccessMethods(reg, Docs(front), allowLegacy, rt).value;
            var next := AddAccess(r, Doc(last), allowLegacy, rt);
            next.Ok? ==> |next.value.registry.endpoints| >= |r.registry.endpoints|
  {
    hide AddAccess, Sound, AddAccessMethods;
    AddAccessMethodsOk(reg, Docs(front), allowLegacy, rt);
    var r := AddAccessMethods(reg, Docs(front), allowLegacy, rt).value;
    var next := AddAccess(r, Doc(last), allowLegacy, rt);
    if next.Ok? {
      AddAccessOk(r, Doc(last), allowLegacy, rt, next.value);
    }
  }

  lemma MethodListSplits(reg: Registry, s: seq<Access>, front: seq<Access>, last: Access)
    requires s != [] && front == s[..|s| - 1] && last == s[|s| - 1] && MethodList(reg, s)
    ensures MethodList(reg, front) && OutputAccess(last, reg) && s == front + [last] && MethodList(reg, front + [last])
    ensures AllWellNamed(s, reg.endpoints) <==> AllWellNamed(front, reg.endpoints) && WellNamed(last, reg.endpoints)
  {
    hide OutputAccess, WellNamed;
    assert s == front + [last];
    assert forall m :: m in s <==> m in front || m == last;
  }

  lemma LastMethodFresh(front: seq<Access>, last: Access)
    requires forall i, j | 0 <= i < j < |front + [last]| :: Get((front + [last])[i].id) != Get((front + [last])[j].id)
    ensures forall m | m in front :: Get(m.id) != Get(last.id)
  {
    forall m | m in front ensures Get(m.id) != Get(last.id) {
      var i :| 0 <= i < |front| && front[i] == m;
      assert (front + [last])[i] == m && (front + [last])[|front|] == last;
    }
  }

  lemma OutputId(m: Access, reg: Registry)
    requires OutputAccess(m, reg)
    ensures Get(m.id).JText?
  {
  }

  // Ports.

  ghost predicate OutputPort(p: Port) {
    NormalizePort(p) == Ok(p)
  }

  lemma PortAgain(raw: Port, p: Port)
    requires NormalizePort(raw) == Ok(p)
    ensures OutputPort(p)
  {
  }

  ghost predicate PortList(s: seq<Port>, taken: set<Socket>) {
    && (forall p | p in s :: OutputPort(p) && SocketOf(p) !in taken)
    && (forall i, j | 0 <= i < j < |s| :: SocketOf(s[i]) != SocketOf(s[j]))
  }

  ghost predicate SeenIs(seen: set<Socket>, s: seq<Port>) {
    forall k :: k in seen <==> exists p :: p in s && SocketOf(p) == k
  }

  lemma {:induction false} AddPortsOk(items: seq<Item<Port>>, taken: set<Socket>)
    ensures var r := AddPorts(items, taken); r.Ok? ==> PortList(r.value.ports, taken) && SeenIs(r.value.seen, r.value.ports)
  {
    hide NormalizePort, SocketOf;
    if items != [] && AddPorts(items, taken).Ok? {
      var front, last := items[..|items| - 1], items[|items| - 1];
      AddPortsOk(front, taken);
      var st := AddPorts(front, taken).value;
      var p := NormalizePort(last.doc).value;
      PortAgain(last.doc, p);
      assert forall q :: q in st.ports + [p] <==> q in st.ports || q == p;
      if !(SocketOf(p) in taken || SocketOf(p) in st.seen) {
        forall i, j | 0 <= i < j < |st.ports + [p]| ensures SocketOf((st.ports + [p])[i]) != SocketOf((st.ports + [p])[j]) {
          if j == |st.ports| {
            assert st.ports[i] in st.ports;
          }
        }
      }
    }
  }

  lemma PortListSplits(s: seq<Port>, front: seq<Port>, last: Port, taken: set<Socket>)
    requires s != [] && front == s[..|s| - 1] && last == s[|s| - 1] && PortList(s, taken)
    ensures s == front + [last] && PortList(front, taken) && OutputPort(last) && SocketOf(last) !in taken
    ensures forall p | p in front :: SocketOf(p) != SocketOf(last)
  {
    hide OutputPort, SocketOf;
    assert s == front + [last];
    forall p | p in front ensures SocketOf(p) != SocketOf(last) {
      var i :| 0 <= i < |front| && front[i] == p;
      assert s[i] == p;
    }
  }

  lemma PortStep(st: PortState, p: Port, taken: set<Socket>)
    requires OutputPort(p) && SocketOf(p) !in taken && SocketOf(p) !in st.seen
    ensures AddPort(st, Doc(p), taken) == Ok(PortState(st.ports + [p], st.seen + {SocketOf(p)}))
  {
    hide NormalizePort, SocketOf;
  }

  lemma {:induction false} SecondPorts(s: seq<Port>, taken: set<Socket>)
    requires PortList(s, taken)
    ensures var r := AddPorts(Docs(s), taken); r.Ok? && r.value.ports == s && SeenIs(r.value.seen, s)
  {
    hide AddPort, SocketOf, OutputPort, PortList;
    if s != [] {
      var front, last := s[..|s| - 1], s[|s| - 1];
      PortListSplits(s, front, last, taken);
      DocsPrefix(s);
      SecondPorts(front, taken);
      PortStep(AddPorts(Docs(front), taken).value, last, taken);
      assert forall q :: q in s <==> q in front || q == last;
    }
  }

  lemma InterfaceAgain(data: Data, out: Data, has: bool, rt: Runtime)
    requires ServiceInterface(data, has, rt) == Ok(out.interface_)
    ensures ServiceInterface(out, has, rt) == Ok(out.interface_)
  {
    assert "available" in STATES && "not_applicable" in STATES && "incomplete" in STATES;
  }

  // The whole document.

  /** The parts the canonical document was written from. */
  ghost predicate WrittenFrom(out: Data, st: AccessState, ports: PortState, isService: bool, rt: Runtime) {
    && MethodsOk(st)
    && (out.endpoints == Some(Items(Docs(st.registry.endpoints))) || (out.endpoints.None? && st.registry.endpoints == []))
    && (out.accessMethods == Some(Items(Docs(st.methods))) || (out.accessMethods.None? && st.methods == []))
    && (st.methods != [] ==> out.endpoints.Some?)
    && (out.ports == Some(Items(Docs(ports.ports))) || (out.ports.None? && ports.ports == []))
    && PortList(ports.ports, SocketsOf(st.registry.endpoints))
    && (isService ==> ServiceInterface(out, st.registry.endpoints != [], rt) == Ok(out.interface_))
  }

  lemma CanonicalParts(data: Data, isService: bool, allowLegacy: bool, rt: Runtime, out: Data)
    returns (st: AccessState, ports: PortState)
    requires NormalizeData(data, isService, allowLegacy, rt) == Ok(out)
    ensures WrittenFrom(out, st, ports, isService, rt)
  {
    hide AddEndpoints, AddAccessMethods, AddPorts, ServiceInterface, SocketsOf, MethodsOk, PortList, Sound;
    var rawEndpoints, rawMethods, rawPorts := ListOf(data.endpoints).value, ListOf(data.accessMethods).value, ListOf(data.ports).value;
    var reg := AddEndpoints(rawEndpoints, rt).value;
    AddEndpointsSound(rawEndpoints, rt);
    st := AddAccessMethods(reg, rawMethods, allowLegacy, rt).value;
    AddAccessMethodsOk(reg, rawMethods, allowLegacy, rt);
    ports := AddPorts(rawPorts, SocketsOf(st.registry.endpoints)).value;
    AddPortsOk(rawPorts, SocketsOf(st.registry.endpoints));
    NothingFromNothing(reg, rawEndpoints, rawMethods, rawPorts, allowLegacy, rt, SocketsOf(st.registry.endpoints));
    if isService {
      InterfaceAgain(data, out, st.registry.endpoints != [], rt);
    }
  }

  lemma NothingFromNothing(reg: Registry, endpoints: seq<Item<Endpoint>>, methods: seq<Item<Access>>, ports: seq<Item<Port>>,
                           allowLegacy: bool, rt: Runtime, taken: set<Socket>)
    requires AddEndpoints(endpoints, rt) == Ok(reg)
    ensures endpoints == [] ==> reg.endpoints == []
    ensures methods == [] ==> AddAccessMethods(reg, methods, allowLegacy, rt) == Ok(AccessState(reg, [], {}))
    ensures ports == [] ==> AddPorts(ports, taken) == Ok(PortState([], {}))
  {
  }

  /** Every endpoint is fixed and every method that names an endpoint names one that carries a URL. */
  ghost predicate Settled(st: AccessState, rt: Runtime) {
    AllFixed(st.registry.endpoints, rt) && AllWellNamed(st.methods, st.registry.endpoints)
  }

  lemma MethodsAreListed(st: AccessState)
    requires MethodsOk(st)
    ensures Sound(st.registry) && MethodList(st.registry, st.methods)
  {
  }

  /** The second pass accepts a canonical document and leaves it as it is exactly when it is settled. */
  lemma SecondPassIff(out: Data, st: AccessState, ports: PortState, isService: bool, allowLegacy: bool, rt: Runtime)
    requires rt.Lawful() && WrittenFrom(out, st, ports, isService, rt)
    ensures NormalizeData(out, isService, allowLegacy, rt) == Ok(out) <==> Settled(st, rt)
  {
    hide AddEndpoints, AddAccessMethods, AddPorts, ServiceInterface, SocketsOf, MethodsOk, PortList, Sound, MethodList, IsFixed,
         WellNamed, RegistryOf, DistinctList, Docs;
    var endpoints, methods := st.registry.endpoints, st.methods;
    DocsOfNothing();
    MethodsAreListed(st);
    SoundIsDistinct(st.registry);
    SecondEndpoints(endpoints, rt);
    SecondMethods(st.registry, methods, allowLegacy, rt);
    SecondPorts(ports.ports, SocketsOf(endpoints));
    RegistryIsBuilt(st.registry);
    var r := NormalizeData(out, isService, allowLegacy, rt);
    if r == Ok(out) {
      var reg := AddEndpoints(Docs(endpoints), rt).value;
      var more := AddAccessMethods(reg, Docs(methods), allowLegacy, rt).value;
      AddEndpointsSound(Docs(endpoints), rt);
      AddAccessMethodsOk(reg, Docs(methods), allowLegacy, rt);
      DocsAreInjective(more.registry.endpoints, endpoints);
      assert more.registry.endpoints == endpoints;
      assert reg.endpoints == endpoints;
      RegistryIsBuilt(reg);
    }
  }

  lemma RegistryIsBuilt(reg: Registry)
    requires Sound(reg)
    ensures reg == RegistryOf(reg.endpoints)
  {
  }

  lemma DocsOfNothing()
    ensures Docs<Endpoint>([]) == [] && Docs<Access>([]) == [] && Docs<Port>([]) == []
  {
  }

  lemma DocsAreInjective<T>(s: seq<T>, t: seq<T>)
    requires Docs(s) == Docs(t)
    ensures s == t
  {
    assert |s| == |Docs(s)| == |t|;
    forall i | 0 <= i < |s| ensures s[i] == t[i] {
      assert Docs(s)[i] == Docs(t)[i];
    }
  }
}
