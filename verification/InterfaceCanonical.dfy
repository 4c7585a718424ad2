/** What every canonical interface document satisfies, and when a second pass leaves it as it is. */
module InterfaceCanonical {
  import opened JsonValues
  import opened Wrappers
  import opened Texts
  import opened Interfaces
  import opened InterfaceFacts
  import opened InterfaceDocuments

  // Endpoints of the output.

  ghost predicate OutputEndpoint(e: Endpoint) {
    && e.id.Some? && e.id.value.JText? && IsIdentifier(e.id.value.text)
    && (Get(e.url) == JNull || (Get(e.url).JText? && Get(e.url).text != "" && Strip(Get(e.url).text) == Get(e.url).text))
    && Get(e.protocol).JText? && IsProtocol(Get(e.protocol).text)
    && Get(e.transport).JText?
    && (Get(e.port) == JNull || Get(e.port).JInt?)
  }

  lemma NormalizedIsOutput(raw: Endpoint, used: set<string>, rt: Runtime, e: Endpoint)
    requires NormalizeEndpoint(raw, used, rt) == Ok(e)
    ensures OutputEndpoint(e) && IdText(e) !in used
  {
    hide ParseUrl, NormalizeType, PathOf, ExposureOf, Strip, UrlProtocol, HostOf, IdOf, IsIdentifier, FactsOf, IsProtocol;
    var f, id := NormalizedParts(raw, used, rt, e);
    UrlAgain(raw, f, id, rt);
    FactsAgree(raw, f, rt);
    var own, parsed :| Agrees(raw, f, own, parsed, rt);
    UrlField(raw, f);
  }

  lemma UrlField(raw: Endpoint, f: Facts)
    requires OptionalText(Get(raw.url)) == Ok(f.url)
    ensures f.url.None? ==> Get(raw.url) == JNull
  {
  }

  ghost predicate RegistryOk(reg: Registry) {
    && (forall e | e in reg.endpoints :: OutputEndpoint(e))
    && (forall i, j | 0 <= i < j < |reg.endpoints| :: IdText(reg.endpoints[i]) != IdText(reg.endpoints[j]))
    && (forall id :: id in reg.ids <==> exists e :: e in reg.endpoints && IdText(e) == id)
    && (forall u | u in reg.byUrl :: reg.byUrl[u] in reg.endpoints && Fingerprint(reg.byUrl[u]) == Some(u))
    && (forall e | e in reg.endpoints && Fingerprint(e).Some? ::
          Fingerprint(e).value in reg.byUrl && reg.byUrl[Fingerprint(e).value] == e)
  }

  lemma RegisterOk(reg: Registry, e: Endpoint)
    requires RegistryOk(reg) && OutputEndpoint(e) && IdText(e) !in reg.ids
    requires Fingerprint(e).Some? ==> Fingerprint(e).value !in reg.byUrl
    ensures RegistryOk(Register(reg, e))
  {
    hide OutputEndpoint, IdText, Fingerprint;
    var more := Register(reg, e);
    assert forall d :: d in more.endpoints <==> d in reg.endpoints || d == e;
    forall i, j | 0 <= i < j < |more.endpoints| ensures IdText(more.endpoints[i]) != IdText(more.endpoints[j]) {
      if j == |reg.endpoints| {
        assert more.endpoints[i] in reg.endpoints;
      }
    }
  }

  /** The registry that registering a list of endpoints one by one builds. */
  function RegistryOf(endpoints: seq<Endpoint>): (reg: Registry)
    ensures reg.endpoints == endpoints
  {
    if endpoints == [] then EMPTY
    else Register(RegistryOf(endpoints[..|endpoints| - 1]), endpoints[|endpoints| - 1])
  }

  ghost predicate Sound(reg: Registry) {
    RegistryOk(reg) && reg == RegistryOf(reg.endpoints)
  }

  lemma RegisterSound(reg: Registry, e: Endpoint)
    requires Sound(reg) && OutputEndpoint(e) && IdText(e) !in reg.ids
    requires Fingerprint(e).Some? ==> Fingerprint(e).value !in reg.byUrl
    ensures Sound(Register(reg, e))
  {
    RegisterOk(reg, e);
    assert (reg.endpoints + [e])[..|reg.endpoints|] == reg.endpoints;
  }

  lemma {:induction false} AddEndpointsSound(items: seq<Item<Endpoint>>, rt: Runtime)
    ensures AddEndpoints(items, rt).Ok? ==> Sound(AddEndpoints(items, rt).value)
  {
    hide NormalizeEndpoint, RegistryOk, Fingerprint, RegistryOf;
    if items == [] {
      EmptySound();
    } else if AddEndpoints(items, rt).Ok? {
      var front, last := items[..|items| - 1], items[|items| - 1];
      AddEndpointsSound(front, rt);
      var reg := AddEndpoints(front, rt).value;
      var e := NormalizeEndpoint(last.doc, reg.ids, rt).value;
      NormalizedIsOutput(last.doc, reg.ids, rt, e);
      if !(Fingerprint(e).Some? && Fingerprint(e).value in reg.byUrl) {
        RegisterSound(reg, e);
      }
    }
  }

  lemma EmptySound()
    ensures Sound(EMPTY)
  {
  }

  // Access methods of the output.

  predicate Carries(e: Endpoint) {
    Get(e.url).JText?
  }

  ghost predicate Names(m: Access, e: Endpoint, reg: Registry) {
    && m.endpointId == e.id && m.endpoint.Some? && m.endpoint.value.JText?
    && !IsBlank(m.endpoint.value.text)
    && ((Strip(m.endpoint.value.text) in reg.byUrl && reg.byUrl[Strip(m.endpoint.value.text)] == e)
        || (!Carries(e) && m.endpoint.value.text == EndpointUrl(e)))
  }

  ghost predicate OutputAccess(m: Access, reg: Registry) {
    && m.id.Some? && m.id.value.JText? && IsIdentifier(m.id.value.text)
    && m.kind.Some? && m.kind.value.JText? && m.kind.value.text in ACCESS_TYPES
    && CredentialsValid(m.credentials)
    && (if Get(m.endpointId) == JNull then Get(m.endpoint) == JNull
        else exists e :: e in reg.endpoints && Names(m, e, reg))
  }

  lemma {:induction false} TrimKeepsHead(s: string, drop: char -> bool)
    requires s != [] && !drop(s[0])
    ensures TrimRight(s, drop) != []
  {
    if drop(s[|s| - 1]) {
      TrimKeepsHead(s[..|s| - 1], drop);
    }
  }

  lemma NotBlank(s: string)
    requires s != [] && !IsSpace(s[0])
    ensures !IsBlank(s)
  {
    var drop := c => IsSpace(c);
    assert TrimLeft(s, drop) == s;
    TrimKeepsHead(s, drop);
  }

  lemma EndpointUrlIsText(e: Endpoint)
    requires OutputEndpoint(e)
    ensures !IsBlank(EndpointUrl(e))
    ensures Carries(e) ==> Fingerprint(e) == Some(Strip(EndpointUrl(e)))
  {
    if Carries(e) {
    } else {
      var p := Get(e.protocol).text;
      assert EndpointUrl(e)[0] == p[0];
      NotBlank(EndpointUrl(e));
    }
  }

  lemma {:induction false} FindByIdFinds(endpoints: seq<Endpoint>, id: Json)
    ensures FindById(endpoints, id).Some? ==> FindById(endpoints, id).value in endpoints && FindById(endpoints, id).value.id == Some(id)
    ensures (exists e :: e in endpoints && e.id == Some(id)) ==> FindById(endpoints, id).Some?
  {
    if endpoints != [] && endpoints[0].id != Some(id) {
      FindByIdFinds(endpoints[1..], id);
      assert endpoints == [endpoints[0]] + endpoints[1..];
    }
  }

  lemma SameIdSameEndpoint(reg: Registry, d: Endpoint, e: Endpoint)
    requires RegistryOk(reg) && d in reg.endpoints && e in reg.endpoints && d.id == e.id
    ensures d == e
  {
    var i :| 0 <= i < |reg.endpoints| && reg.endpoints[i] == d;
    var j :| 0 <= j < |reg.endpoints| && reg.endpoints[j] == e;
    assert i == j || i < j || j < i;
  }

  /** The registry after one access method: sound, and grown by at most one endpoint at its end. */
  lemma LinkSound(reg: Registry, raw: Access, allowLegacy: bool, rt: Runtime, link: Link)
    requires Sound(reg) && LinkOf(reg, raw, allowLegacy, rt) == Ok(link)
    ensures Sound(link.registry)
    ensures link.registry == reg || (|link.registry.endpoints| == |reg.endpoints| + 1 && reg.endpoints < link.registry.endpoints
                                     && forall u | u in reg.byUrl :: u in link.registry.byUrl && link.registry.byUrl[u] == reg.byUrl[u])
    ensures link.url.Some? ==> !IsBlank(link.url.value) && Strip(link.url.value) in link.registry.byUrl
                               && link.endpointId == JText(IdText(link.registry.byUrl[Strip(link.url.value)]))
                               && link.endpointId == Get(link.registry.byUrl[Strip(link.url.value)].id)
  {
    hide NormalizeEndpoint, RegistryOf, IsIdentifier, Promotion, IsBlank, Strip;
    var url := Get(raw.endpoint);
    if link.url.Some? {
      var text := url.text;
      if Strip(text) in reg.byUrl {
        var known := reg.byUrl[Strip(text)];
        assert OutputEndpoint(known);
      } else {
        var p := Promotion(raw, text, rt);
        var e := NormalizeEndpoint(p, reg.ids, rt).value;
        NormalizedIsOutput(p, reg.ids, rt, e);
        PromotedFingerprint(raw, text, reg.ids, rt, e);
        RegisterSound(reg, e);
      }
    }
  }

  lemma OutputAccessStays(m: Access, reg: Registry, more: Registry)
    requires OutputAccess(m, reg) && reg.endpoints <= more.endpoints
    requires forall u | u in reg.byUrl :: u in more.byUrl && more.byUrl[u] == reg.byUrl[u]
    ensures OutputAccess(m, more)
  {
    hide IsIdentifier, Strip, IsBlank, CredentialsValid, EndpointUrl;
    if Get(m.endpointId) != JNull {
      var e :| e in reg.endpoints && Names(m, e, reg);
      assert e in more.endpoints && Names(m, e, more);
    }
  }

  ghost predicate MethodsOk(st: AccessState) {
    && Sound(st.registry)
    && (forall m | m in st.methods :: OutputAccess(m, st.registry))
    && (forall id :: id in st.ids <==> exists m :: m in st.methods && Get(m.id) == JText(id))
    && (forall i, j | 0 <= i < j < |st.methods| :: Get(st.methods[i].id) != Get(st.methods[j].id))
  }

  lemma WrittenIsOutput(raw: Access, link: Link, kind: string, id: string, target: Option<Endpoint>)
    requires Sound(link.registry) && IsIdentifier(id) && kind in ACCESS_TYPES && CredentialsValid(raw.credentials)
    requires target == FindById(link.registry.endpoints, link.endpointId)
    requires link.endpointId != JNull ==> target.Some?
    requires link.url.Some? ==> !IsBlank(link.url.value) && Strip(link.url.value) in link.registry.byUrl
                                && link.endpointId == Get(link.registry.byUrl[Strip(link.url.value)].id)
    requires link.endpointId == JNull ==> Get(raw.endpointId) == JNull && (link.dropUrl || Get(raw.endpoint) == JNull)
    ensures OutputAccess(WriteAccess(raw, link, kind, id, target), link.registry)
  {
    hide IsIdentifier, Strip, IsBlank, CredentialsValid, EndpointUrl, RegistryOf, OutputEndpoint, Fingerprint;
    FindByIdFinds(link.registry.endpoints, link.endpointId);
    var m := WriteAccess(raw, link, kind, id, target);
    if link.endpointId != JNull {
      var e := target.value;
      EndpointUrlIsText(e);
      if link.url.Some? {
        var known := link.registry.byUrl[Strip(link.url.value)];
        assert known.id == e.id by {
          assert OutputEndpoint(known) && OutputEndpoint(e);
          HasId(known);
          HasId(e);
        }
        SameIdSameEndpoint(link.registry, known, e);
      }
      assert Names(m, e, link.registry);
    }
  }

  lemma HasId(e: Endpoint)
    requires OutputEndpoint(e)
    ensures e.id == Some(Get(e.id)) && Get(e.id) == JText(IdText(e))
  {
  }

  lemma AddAccessOk(st: AccessState, item: Item<Access>, allowLegacy: bool, rt: Runtime, next: AccessState)
    requires MethodsOk(st) && AddAccess(st, item, allowLegacy, rt) == Ok(next)
    ensures MethodsOk(next) && st.registry.endpoints <= next.registry.endpoints && |next.methods| == |st.methods| + 1
  {
    hide LinkOf, NormalizeAccessType, AccessIdOf, FindById, CredentialsValid, WriteAccess, OutputAccess, Sound, IsIdentifier;
    var raw := item.doc;
    var link := LinkOf(st.registry, raw, allowLegacy, rt).value;
    var kind := NormalizeAccessType(Get(raw.kind), rt).value;
    var id := AccessIdOf(raw, kind, link.endpointId, st.ids, rt).value;
    var target := FindById(link.registry.endpoints, link.endpointId);
    LinkSound(st.registry, raw, allowLegacy, rt, link);
    if link.endpointId == JNull {
      LinkNull(st.registry, raw, allowLegacy, rt, link);
    }
    AccessTypeListed(Get(raw.kind), rt, kind);
    WrittenIsOutput(raw, link, kind, id, target);
    var m := WriteAccess(raw, link, kind, id, target);
    assert Get(m.id) == JText(id) by {
      WrittenId(raw, link, kind, id, target);
    }
    forall d | d in next.methods ensures OutputAccess(d, next.registry) {
      if d in st.methods {
        OutputAccessStays(d, st.registry, next.registry);
      }
    }
    assert forall d :: d in next.methods <==> d in st.methods || d == m;
    forall i, j | 0 <= i < j < |next.methods| ensures Get(next.methods[i].id) != Get(next.methods[j].id) {
      if j == |st.methods| {
        assert next.methods[i] in st.methods;
        assert Get(next.methods[i].id) == JText(id) ==> id in st.ids;
      }
    }
  }

  lemma WrittenId(raw: Access, link: Link, kind: string, id: string, target: Option<Endpoint>)
    ensures Get(WriteAccess(raw, link, kind, id, target).id) == JText(id)
  {
  }

  lemma LinkNull(reg: Registry, raw: Access, allowLegacy: bool, rt: Runtime, link: Link)
    requires LinkOf(reg, raw, allowLegacy, rt) == Ok(link) && link.endpointId == JNull
    ensures Get(raw.endpointId) == JNull && (link.dropUrl || Get(raw.endpoint) == JNull)
  {
    hide NormalizeEndpoint, Strip, IsIdentifier;
  }

  lemma AccessTypeListed(value: Json, rt: Runtime, t: string)
    requires NormalizeAccessType(value, rt) == Ok(t)
    ensures t in ACCESS_TYPES
  {
    assert "other" in ACCESS_TYPES;
  }

  lemma {:induction false} AddAccessMethodsOk(reg: Registry, items: seq<Item<Access>>, allowLegacy: bool, rt: Runtime)
    requires Sound(reg)
    ensures var r := AddAccessMethods(reg, items, allowLegacy, rt);
            r.Ok? ==> MethodsOk(r.value) && reg.endpoints <= r.value.registry.endpoints && |r.value.methods| == |items|
  {
    hide AddAccess, MethodsOk;
    if items == [] {
      NoMethodsOk(reg);
    } else if AddAccessMethods(reg, items, allowLegacy, rt).Ok? {
      var front, last := items[..|items| - 1], items[|items| - 1];
      AddAccessMethodsOk(reg, front, allowLegacy, rt);
      var st := AddAccessMethods(reg, front, allowLegacy, rt).value;
      AddAccessOk(st, last, allowLegacy, rt, AddAccess(st, last, allowLegacy, rt).value);
    }
  }

  lemma NoMethodsOk(reg: Registry)
    requires Sound(reg)
    ensures MethodsOk(AccessState(reg, [], {}))
  {
  }
}
