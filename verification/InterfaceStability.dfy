/** Which documents `normalize_interface_data` brings, in one pass, to a form that the next pass keeps. */
module InterfaceStability {
  import opened JsonValues
  import opened Wrappers
  import opened Texts
  import opened Interfaces
  import opened InterfaceFacts
  import opened InterfaceDocuments
  import opened InterfaceCanonical
  import opened InterfaceSecondPass
  import opened InterfaceTheorems

  // What can be read off the given document.

  /** No hazard applies to the document if it is accepted. */
  predicate Harmless(raw: Endpoint, rt: Runtime) {
    FactsOf(raw, rt).Ok? ==> !Hazard(raw, FactsOf(raw, rt).value, rt)
  }

  /** The endpoint at `i` is not dropped: no earlier one has its stripped URL. */
  predicate IsKept(items: seq<Item<Endpoint>>, i: nat)
    requires i < |items|
  {
    && items[i].Doc?
    && (Fingerprint(items[i].doc).Some? ==>
          forall j | 0 <= j < i && items[j].Doc? :: Fingerprint(items[j].doc) != Fingerprint(items[i].doc))
  }

  predicate KeptAreHarmless(items: seq<Item<Endpoint>>, rt: Runtime) {
    forall i | 0 <= i < |items| && IsKept(items, i) :: Harmless(items[i].doc, rt)
  }

  /** The stripped URL an access method gives; a blank legacy URL counts as none. */
  function GivenUrl(raw: Access, allowLegacy: bool): Option<string> {
    var url := Get(raw.endpoint);
    if url.JText? && !(allowLegacy && IsBlank(url.text)) then Some(Strip(url.text)) else None
  }

  predicate IsUrlOf(u: string, endpoints: seq<Item<Endpoint>>) {
    exists item :: item in endpoints && item.Doc? && Fingerprint(item.doc) == Some(u)
  }

  predicate IsGivenBy(u: string, methods: seq<Item<Access>>, allowLegacy: bool) {
    exists item :: item in methods && item.Doc? && GivenUrl(item.doc, allowLegacy) == Some(u)
  }

  /** The method gives a URL that no endpoint and no earlier method has: it becomes a new endpoint. */
  predicate IsPromoted(raw: Access, endpoints: seq<Item<Endpoint>>, earlier: seq<Item<Access>>, allowLegacy: bool) {
    var url := GivenUrl(raw, allowLegacy);
    url.Some? && !IsUrlOf(url.value, endpoints) && !IsGivenBy(url.value, earlier, allowLegacy)
  }

  /** The host name of the URL carries no outer white space. */
  predicate TidyHost(url: string, rt: Runtime) {
    var parsed := ParseUrl(Some(url), rt);
    parsed.Ok? && parsed.value.Some? ==> Strip(parsed.value.value.hostname) == parsed.value.value.hostname
  }

  /** Some listed endpoint has this id and carries a URL. */
  predicate Carried(id: Json, endpoints: seq<Endpoint>) {
    exists e :: e in endpoints && e.id == Some(id) && Carries(e)
  }

  /** A promoted method has a tidy host, and a method that names an endpoint by its id alone names one
      that carries a URL. */
  predicate TurnIsSettled(raw: Access, endpoints: seq<Item<Endpoint>>, earlier: seq<Item<Access>>, reg: Registry,
                          allowLegacy: bool, rt: Runtime)
  {
    && (IsPromoted(raw, endpoints, earlier, allowLegacy) ==> TidyHost(GivenUrl(raw, allowLegacy).value, rt))
    && (GivenUrl(raw, allowLegacy).None? && Get(raw.endpointId) != JNull ==> Carried(Get(raw.endpointId), reg.endpoints))
  }

  /** The endpoints there are when the method at `i` has its turn. */
  function RegistryAt(endpoints: seq<Item<Endpoint>>, methods: seq<Item<Access>>, i: nat, allowLegacy: bool, rt: Runtime)
    : Registry
    requires i <= |methods|
  {
    var reg := AddEndpoints(endpoints, rt);
    if reg.Err? then EMPTY
    else
      var st := AddAccessMethods(reg.value, methods[..i], allowLegacy, rt);
      if st.Err? then EMPTY else st.value.registry
  }

  predicate TurnsAreSettled(endpoints: seq<Item<Endpoint>>, methods: seq<Item<Access>>, allowLegacy: bool, rt: Runtime) {
    forall i | 0 <= i < |methods| && methods[i].Doc? ::
      TurnIsSettled(methods[i].doc, endpoints, methods[..i], RegistryAt(endpoints, methods, i, allowLegacy, rt), allowLegacy, rt)
  }

  // Endpoints.

  lemma UrlIsKept(raw: Endpoint, used: set<string>, rt: Runtime, e: Endpoint)
    requires NormalizeEndpoint(raw, used, rt) == Ok(e)
    ensures Fingerprint(e) == Fingerprint(raw)
  {
    hide FactsOf, IdOf, IsIdentifier, Strip, ParseUrl;
    var f, id := NormalizedParts(raw, used, rt, e);
    UrlAgain(raw, f, id, rt);
    BlankEmpty();
  }

  lemma HarmlessIffFixed(raw: Endpoint, used: set<string>, rt: Runtime, e: Endpoint)
    requires rt.Lawful() && NormalizeEndpoint(raw, used, rt) == Ok(e)
    ensures IsFixed(e, rt) <==> Harmless(raw, rt)
  {
    hide FactsOf, IdOf, Hazard, IsIdentifier;
    var f, id := NormalizedParts(raw, used, rt, e);
    EndpointFixedIff(raw, used, rt, e, f, {});
  }

  /** Whether a canonical endpoint has a property is decided by the document it was made from. */
  ghost predicate Decides(q: Endpoint -> bool, p: Endpoint -> bool, rt: Runtime) {
    forall raw, used, e | NormalizeEndpoint(raw, used, rt) == Ok(e) :: p(e) <==> q(raw)
  }

  ghost predicate AllMeet(endpoints: seq<Endpoint>, p: Endpoint -> bool) {
    forall e | e in endpoints :: p(e)
  }

  predicate KeptMeet(items: seq<Item<Endpoint>>, q: Endpoint -> bool) {
    forall i | 0 <= i < |items| && IsKept(items, i) :: q(items[i].doc)
  }

  lemma KeptSplits(items: seq<Item<Endpoint>>, q: Endpoint -> bool)
    requires items != []
    ensures var n := |items| - 1;
            KeptMeet(items, q) <==> KeptMeet(items[..n], q) && (IsKept(items, n) ==> q(items[n].doc))
  {
    hide Fingerprint;
    var front := items[..|items| - 1];
    forall i | 0 <= i < |front| ensures IsKept(items, i) == IsKept(front, i) && items[i] == front[i] {
      assert forall j | 0 <= j <= i :: items[j] == front[j];
    }
  }

  ghost predicate IndexIs(reg: Registry, items: seq<Item<Endpoint>>) {
    forall u :: u in reg.byUrl <==> IsUrlOf(u, items)
  }

  lemma KeptIffNew(items: seq<Item<Endpoint>>, n: nat)
    requires n < |items| && items[n].Doc?
    ensures IsKept(items, n) <==> (Fingerprint(items[n].doc).Some? ==> !IsUrlOf(Fingerprint(items[n].doc).value, items[..n]))
  {
    hide Fingerprint;
    forall j | 0 <= j < n ensures items[j] in items[..n] {
      assert items[..n][j] == items[j];
    }
  }

  lemma UrlsGrow(items: seq<Item<Endpoint>>, u: string)
    requires items != []
    ensures var n := |items| - 1;
            IsUrlOf(u, items) <==> IsUrlOf(u, items[..n]) || (items[n].Doc? && Fingerprint(items[n].doc) == Some(u))
  {
    hide Fingerprint;
    assert items == items[..|items| - 1] + [items[|items| - 1]];
  }

  /** The endpoints kept by the first loop have a property exactly when the documents they come from
      decide so, and the index holds exactly the URLs of the documents. */
  lemma {:induction false} KeptDocuments(items: seq<Item<Endpoint>>, q: Endpoint -> bool, p: Endpoint -> bool, rt: Runtime)
    requires AddEndpoints(items, rt).Ok? && Decides(q, p, rt)
    ensures IndexIs(AddEndpoints(items, rt).value, items)
    ensures AllMeet(AddEndpoints(items, rt).value.endpoints, p) <==> KeptMeet(items, q)
  {
    hide NormalizeEndpoint, Fingerprint, KeptMeet, IsUrlOf, IsKept;
    if items == [] {
      NothingKept(q, p);
    } else {
      var n := |items| - 1;
      var front, raw := items[..n], items[n].doc;
      KeptDocuments(front, q, p, rt);
      var reg := AddEndpoints(front, rt).value;
      var e := NormalizeEndpoint(raw, reg.ids, rt).value;
      UrlIsKept(raw, reg.ids, rt, e);
      assert p(e) <==> q(raw);
      KeptSplits(items, q);
      KeptIffNew(items, n);
      forall u ensures IsUrlOf(u, items) <==> IsUrlOf(u, front) || Fingerprint(raw) == Some(u) {
        UrlsGrow(items, u);
      }
    }
  }

  lemma NothingKept(q: Endpoint -> bool, p: Endpoint -> bool)
    ensures KeptMeet([], q) && IndexIs(EMPTY, []) && AllMeet([], p)
  {
  }

  /** The endpoints kept by the first loop are fixed exactly when the documents they come from are
      harmless. */
  lemma KeptEndpoints(items: seq<Item<Endpoint>>, rt: Runtime)
    requires rt.Lawful() && AddEndpoints(items, rt).Ok?
    ensures IndexIs(AddEndpoints(items, rt).value, items)
    ensures AllFixed(AddEndpoints(items, rt).value.endpoints, rt) <==> KeptAreHarmless(items, rt)
  {
    hide NormalizeEndpoint, AddEndpoints, Harmless, IsFixed, IsKept, IndexIs;
    var q, p := raw => Harmless(raw, rt), e => IsFixed(e, rt);
    forall raw, used, e | NormalizeEndpoint(raw, used, rt) == Ok(e) ensures p(e) <==> q(raw) {
      HarmlessIffFixed(raw, used, rt, e);
    }
    KeptDocuments(items, q, p, rt);
  }

  // Access methods.

  /** The only hazard of a promoted URL is its host. */
  lemma PromotionIsFixedIff(raw: Access, text: string, used: set<string>, rt: Runtime, e: Endpoint)
    requires rt.Lawful() && !IsBlank(text) && NormalizeEndpoint(Promotion(raw, text, rt), used, rt) == Ok(e)
    ensures IsFixed(e, rt) <==> TidyHost(Strip(text), rt)
  {
    hide FactsOf, IdOf, IsIdentifier, EndpointTypeFor, UrlHasPath, UrlProtocol, ParseUrl, NormalizeEndpoint;
    hide Strip, IsBlank;
    var p := Promotion(raw, text, rt);
    HarmlessIffFixed(p, used, rt, e);
    var f, id := NormalizedParts(p, used, rt, e);
    UrlAgain(p, f, id, rt);
    assert f.url == Some(Strip(text));
    EmptyIsStripped();
  }

  lemma EmptyIsStripped()
    ensures Strip("") == ""
  {
  }

  ghost predicate MethodIndexIs(reg: Registry, endpoints: seq<Item<Endpoint>>, methods: seq<Item<Access>>, allowLegacy: bool) {
    forall u :: u in reg.byUrl <==> IsUrlOf(u, endpoints) || IsGivenBy(u, methods, allowLegacy)
  }

  lemma GivenGrows(methods: seq<Item<Access>>, u: string, allowLegacy: bool)
    requires methods != []
    ensures var n := |methods| - 1;
            IsGivenBy(u, methods, allowLegacy) <==>
            IsGivenBy(u, methods[..n], allowLegacy) || (methods[n].Doc? && GivenUrl(methods[n].doc, allowLegacy) == Some(u))
  {
    hide GivenUrl;
    assert methods == methods[..|methods| - 1] + [methods[|methods| - 1]];
  }

  /** One method's turn: the registry grows by its URL, and by a fixed endpoint exactly if the URL of a
      promoted method has a tidy host. */
  lemma LinkIndex(reg: Registry, raw: Access, allowLegacy: bool, rt: Runtime, link: Link)
    requires Sound(reg) && LinkOf(reg, raw, allowLegacy, rt) == Ok(link)
    ensures link.url.Some? <==> GivenUrl(raw, allowLegacy).Some?
    ensures link.url.Some? ==> !IsBlank(link.url.value) && GivenUrl(raw, allowLegacy) == Some(Strip(link.url.value))
    ensures link.url.None? ==> link.registry == reg && link.endpointId == Get(raw.endpointId)
    ensures forall u :: u in link.registry.byUrl <==> u in reg.byUrl || GivenUrl(raw, allowLegacy) == Some(u)
  {
    hide NormalizeEndpoint, RegistryOf, IsIdentifier, Promotion, IsBlank, Strip, RegistryOk;
    if link.url.Some? && Strip(link.url.value) !in reg.byUrl {
      var text := link.url.value;
      PromotedFingerprint(raw, text, reg.ids, rt, NormalizeEndpoint(Promotion(raw, text, rt), reg.ids, rt).value);
    }
  }

  /** Whether a promoted endpoint has a property is decided by its stripped URL. */
  ghost predicate UrlDecides(q: string -> bool, p: Endpoint -> bool, rt: Runtime) {
    forall raw, text, used, e | !IsBlank(text) && NormalizeEndpoint(Promotion(raw, text, rt), used, rt) == Ok(e) ::
      p(e) <==> q(Strip(text))
  }

  lemma LinkMeets(reg: Registry, raw: Access, allowLegacy: bool, rt: Runtime, link: Link, q: string -> bool, p: Endpoint -> bool)
    requires UrlDecides(q, p, rt) && LinkOf(reg, raw, allowLegacy, rt) == Ok(link)
    ensures var url := GivenUrl(raw, allowLegacy);
            AllMeet(link.registry.endpoints, p) <==>
            AllMeet(reg.endpoints, p) && (url.Some? && url.value !in reg.byUrl ==> q(url.value))
  {
    hide NormalizeEndpoint, Promotion, IsBlank, Strip, IsIdentifier;
    var url := GivenUrl(raw, allowLegacy);
    if url.Some? && url.value !in reg.byUrl {
      var text := Get(raw.endpoint).text;
      var e := NormalizeEndpoint(Promotion(raw, text, rt), reg.ids, rt).value;
      assert p(e) <==> q(Strip(text));
      assert forall d :: d in link.registry.endpoints <==> d in reg.endpoints || d == e;
    }
  }

  lemma LinkIsFixedIff(reg: Registry, raw: Access, allowLegacy: bool, rt: Runtime, link: Link)
    requires rt.Lawful() && LinkOf(reg, raw, allowLegacy, rt) == Ok(link)
    ensures var url := GivenUrl(raw, allowLegacy);
            AllFixed(link.registry.endpoints, rt) <==>
            AllFixed(reg.endpoints, rt) && (url.Some? && url.value !in reg.byUrl ==> TidyHost(url.value, rt))
  {
    hide NormalizeEndpoint, IsFixed, Promotion, IsBlank, Strip, LinkOf, TidyHost, GivenUrl;
    var q, p := url => TidyHost(url, rt), e => IsFixed(e, rt);
    forall raw, text, used, e | !IsBlank(text) && NormalizeEndpoint(Promotion(raw, text, rt), used, rt) == Ok(e)
      ensures p(e) <==> q(Strip(text))
    {
      PromotionIsFixedIff(raw, text, used, rt, e);
    }
    LinkMeets(reg, raw, allowLegacy, rt, link, q, p);
  }

  /** Whether a written method is well named is known at its turn. */
  lemma WrittenIsWellNamed(reg: Registry, raw: Access, allowLegacy: bool, rt: Runtime, link: Link, kind: string, id: string,
                           target: Option<Endpoint>)
    requires Sound(reg) && LinkOf(reg, raw, allowLegacy, rt) == Ok(link)
    ensures WellNamed(WriteAccess(raw, link, kind, id, target), link.registry.endpoints) <==>
            (GivenUrl(raw, allowLegacy).None? && Get(raw.endpointId) != JNull ==> Carried(Get(raw.endpointId), reg.endpoints))
  {
    hide LinkOf, GivenUrl, RegistryOf, OutputEndpoint, Carries;
    LinkSound(reg, raw, allowLegacy, rt, link);
    LinkIndex(reg, raw, allowLegacy, rt, link);
    var m := WriteAccess(raw, link, kind, id, target);
    NamesTheLink(raw, link, kind, id, target);
    if link.url.Some? {
      var known := link.registry.byUrl[Strip(link.url.value)];
      assert known in link.registry.endpoints && OutputEndpoint(known);
      HasId(known);
      HasUrl(known);
    }
  }

  lemma NamesTheLink(raw: Access, link: Link, kind: string, id: string, target: Option<Endpoint>)
    ensures var m := WriteAccess(raw, link, kind, id, target);
            if link.endpointId != JNull then m.endpointId == Some(link.endpointId) else m.endpointId == raw.endpointId
  {
  }

  lemma HasUrl(e: Endpoint)
    ensures Fingerprint(e).Some? ==> Carries(e)
  {
  }

  /** Later endpoints do not change whether a method is well named. */
  lemma WellNamedStays(m: Access, reg: Registry, more: Registry)
    requires OutputAccess(m, reg) && reg.endpoints <= more.endpoints && Sound(more)
    ensures WellNamed(m, reg.endpoints) <==> WellNamed(m, more.endpoints)
  {
    hide IsIdentifier, Strip, IsBlank, CredentialsValid, EndpointUrl, RegistryOf, OutputEndpoint, Fingerprint, Carries;
    if Get(m.endpointId) != JNull {
      var e :| e in reg.endpoints && Names(m, e, reg);
      assert e in more.endpoints;
      forall d | d in more.endpoints && d.id == m.endpointId ensures d == e {
        SameIdSameEndpoint(more, d, e);
      }
    }
  }

  lemma AllWellNamedStays(st: AccessState, more: Registry)
    requires MethodsOk(st) && st.registry.endpoints <= more.endpoints && Sound(more)
    ensures AllWellNamed(st.methods, st.registry.endpoints) <==> AllWellNamed(st.methods, more.endpoints)
  {
    hide OutputAccess, WellNamed, Sound;
    forall m | m in st.methods ensures WellNamed(m, st.registry.endpoints) <==> WellNamed(m, more.endpoints) {
      WellNamedStays(m, st.registry, more);
    }
  }

  /** One turn keeps a state settled exactly when the method is settled at its turn. */
  lemma OneTurn(st: AccessState, raw: Access, endpoints: seq<Item<Endpoint>>, earlier: seq<Item<Access>>,
                allowLegacy: bool, rt: Runtime, next: AccessState)
    requires rt.Lawful() && MethodsOk(st) && MethodIndexIs(st.registry, endpoints, earlier, allowLegacy)
    requires AddAccess(st, Doc(raw), allowLegacy, rt) == Ok(next)
    ensures Settled(next, rt) <==> Settled(st, rt) && TurnIsSettled(raw, endpoints, earlier, st.registry, allowLegacy, rt)
    ensures forall u :: u in next.registry.byUrl <==> u in st.registry.byUrl || GivenUrl(raw, allowLegacy) == Some(u)
  {
    hide LinkOf, NormalizeAccessType, AccessIdOf, FindById, CredentialsValid, WriteAccess, OutputAccess, Sound, IsIdentifier;
    hide GivenUrl, AllFixed, WellNamed, TidyHost, Carried, IsUrlOf, IsGivenBy;
    var link := LinkOf(st.registry, raw, allowLegacy, rt).value;
    var kind := NormalizeAccessType(Get(raw.kind), rt).value;
    var id := AccessIdOf(raw, kind, link.endpointId, st.ids, rt).value;
    var target := FindById(link.registry.endpoints, link.endpointId);
    var m := WriteAccess(raw, link, kind, id, target);
    AddAccessOk(st, Doc(raw), allowLegacy, rt, next);
    LinkIndex(st.registry, raw, allowLegacy, rt, link);
    LinkIsFixedIff(st.registry, raw, allowLegacy, rt, link);
    WrittenIsWellNamed(st.registry, raw, allowLegacy, rt, link, kind, id, target);
    assert Sound(next.registry);
    AllWellNamedStays(st, next.registry);
    assert forall d :: d in next.methods <==> d in st.methods || d == m;
  }

  lemma TurnsSplit(endpoints: seq<Item<Endpoint>>, methods: seq<Item<Access>>, allowLegacy: bool, rt: Runtime)
    requires methods != []
    ensures var n := |methods| - 1;
            TurnsAreSettled(endpoints, methods, allowLegacy, rt) <==>
            && TurnsAreSettled(endpoints, methods[..n], allowLegacy, rt)
            && (methods[n].Doc? ==> TurnIsSettled(methods[n].doc, endpoints, methods[..n],
                                                  RegistryAt(endpoints, methods, n, allowLegacy, rt), allowLegacy, rt))
  {
    hide TurnIsSettled, AddEndpoints, AddAccessMethods;
    var front := methods[..|methods| - 1];
    forall i | 0 <= i < |front|
      ensures methods[i] == front[i] && methods[..i] == front[..i]
              && RegistryAt(endpoints, methods, i, allowLegacy, rt) == RegistryAt(endpoints, front, i, allowLegacy, rt)
    {
      assert methods[..i] == front[..i];
    }
  }

  lemma {:induction false} TurnsSettle(endpoints: seq<Item<Endpoint>>, reg: Registry, methods: seq<Item<Access>>,
                                       allowLegacy: bool, rt: Runtime)
    requires rt.Lawful() && AddEndpoints(endpoints, rt) == Ok(reg) && AddAccessMethods(reg, methods, allowLegacy, rt).Ok?
    ensures var st := AddAccessMethods(reg, methods, allowLegacy, rt).value;
            && MethodIndexIs(st.registry, endpoints, methods, allowLegacy)
            && (Settled(st, rt) <==> KeptAreHarmless(endpoints, rt) && TurnsAreSettled(endpoints, methods, allowLegacy, rt))
  {
    hide AddEndpoints, AddAccess, TurnIsSettled, KeptAreHarmless, MethodsOk, Settled, GivenUrl, IsUrlOf, IsGivenBy, TurnsAreSettled;
    KeptEndpoints(endpoints, rt);
    AddEndpointsSound(endpoints, rt);
    if methods == [] {
      NoTurns(endpoints, reg, allowLegacy, rt);
    } else {
      var n := |methods| - 1;
      var front := methods[..n];
      TurnsSettle(endpoints, reg, front, allowLegacy, rt);
      var st := AddAccessMethods(reg, front, allowLegacy, rt).value;
      AddAccessMethodsOk(reg, front, allowLegacy, rt);
      assert methods[n].Doc? by {
        OnlyObjects(st, methods[n], allowLegacy, rt);
      }
      OneTurn(st, methods[n].doc, endpoints, front, allowLegacy, rt, AddAccess(st, methods[n], allowLegacy, rt).value);
      TurnsSplit(endpoints, methods, allowLegacy, rt);
      assert RegistryAt(endpoints, methods, n, allowLegacy, rt) == st.registry;
      forall u
        ensures IsGivenBy(u, methods, allowLegacy) <==>
                IsGivenBy(u, front, allowLegacy) || GivenUrl(methods[n].doc, allowLegacy) == Some(u)
      {
        GivenGrows(methods, u, allowLegacy);
      }
    }
  }

  lemma OnlyObjects(st: AccessState, item: Item<Access>, allowLegacy: bool, rt: Runtime)
    requires AddAccess(st, item, allowLegacy, rt).Ok?
    ensures item.Doc?
  {
  }

  lemma NoTurns(endpoints: seq<Item<Endpoint>>, reg: Registry, allowLegacy: bool, rt: Runtime)
    requires IndexIs(reg, endpoints)
    ensures MethodIndexIs(reg, endpoints, [], allowLegacy)
    ensures Settled(AccessState(reg, [], {}), rt) <==> AllFixed(reg.endpoints, rt)
    ensures TurnsAreSettled(endpoints, [], allowLegacy, rt)
  {
    hide IsUrlOf, AllFixed;
  }

  // The whole document.

  /** What makes one pass enough, read off the given document: every kept endpoint is harmless, every
      promoted URL has a tidy host, and every method that names an endpoint by its id alone names, at
      its turn, one that carries a URL. */
  predicate OnePassIsEnough(data: Data, allowLegacy: bool, rt: Runtime) {
    var endpoints, methods := ListOf(data.endpoints), ListOf(data.accessMethods);
    endpoints.Ok? && methods.Ok?
    && KeptAreHarmless(endpoints.value, rt) && TurnsAreSettled(endpoints.value, methods.value, allowLegacy, rt)
  }

  lemma PartsOfPass(data: Data, isService: bool, allowLegacy: bool, rt: Runtime, out: Data)
    returns (endpoints: seq<Item<Endpoint>>, methods: seq<Item<Access>>, reg: Registry, st: AccessState)
    requires NormalizeData(data, isService, allowLegacy, rt) == Ok(out)
    ensures ListOf(data.endpoints) == Ok(endpoints) && ListOf(data.accessMethods) == Ok(methods)
    ensures AddEndpoints(endpoints, rt) == Ok(reg) && AddAccessMethods(reg, methods, allowLegacy, rt) == Ok(st)
    ensures ObjectsOf(out.endpoints) == st.registry.endpoints && ObjectsOf(out.accessMethods) == st.methods
    ensures ListOf(out.endpoints) == Ok(Docs(st.registry.endpoints)) && ListOf(out.accessMethods) == Ok(Docs(st.methods))
  {
    hide AddPorts, ServiceInterface, Objects, SocketsOf, AddEndpoints, AddAccessMethods;
    endpoints, methods := ListOf(data.endpoints).value, ListOf(data.accessMethods).value;
    reg := AddEndpoints(endpoints, rt).value;
    st := AddAccessMethods(reg, methods, allowLegacy, rt).value;
    ObjectsOfDocs(st.registry.endpoints);
    ObjectsOfDocs(st.methods);
    NothingFromNothing(reg, endpoints, methods, [], allowLegacy, rt, {});
    ObjectsOfDocs<Endpoint>([]);
    ObjectsOfDocs<Access>([]);
    DocsOfNothing();
  }

  /** A second pass accepts the output of the first and returns it unchanged exactly when the input
      says so. */
  lemma StableIff(data: Data, isService: bool, allowLegacy: bool, rt: Runtime, out: Data)
    requires rt.Lawful() && NormalizeData(data, isService, allowLegacy, rt) == Ok(out)
    ensures NormalizeData(out, isService, allowLegacy, rt) == Ok(out) <==> OnePassIsEnough(data, allowLegacy, rt)
  {
    hide NormalizeData, AddEndpoints, AddAccessMethods, KeptAreHarmless, TurnsAreSettled, AllFixed, AllWellNamed, ObjectsOf, Docs, ListOf;
    var endpoints, methods, reg, st := PartsOfPass(data, isService, allowLegacy, rt, out);
    TurnsSettle(endpoints, reg, methods, allowLegacy, rt);
    SettledIff(data, isService, allowLegacy, rt, out);
  }

  // A checklist that needs no run.

  /** No explicit empty path, no transport in other letters as the protocol, and a tidy host in the URL. */
  predicate IsPlain(raw: Endpoint, rt: Runtime) {
    && raw.path != Some(JText(""))
    && (Get(raw.protocol).JText? && IsTransport(JText(rt.lower(Get(raw.protocol).text))) ==> IsTransport(Get(raw.protocol)))
    && (Fingerprint(raw).Some? ==> TidyHost(Fingerprint(raw).value, rt))
  }

  lemma PlainIsHarmless(raw: Endpoint, rt: Runtime)
    requires IsPlain(raw, rt)
    ensures Harmless(raw, rt)
  {
    hide FactsOf, Strip, UrlHasPath, UrlProtocol, ParseUrl, IsTransport;
    if FactsOf(raw, rt).Ok? {
      var f := FactsOf(raw, rt).value;
      FactsUrl(raw, f, rt);
      NothingParsed(rt);
    }
  }

  lemma FactsUrl(raw: Endpoint, f: Facts, rt: Runtime)
    requires FactsOf(raw, rt) == Ok(f)
    ensures f.url == Fingerprint(raw)
  {
    hide FactsOf, Strip, IsBlank;
    UrlAgain(raw, f, "", rt);
    BlankEmpty();
  }

  lemma NothingParsed(rt: Runtime)
    ensures ParseUrl(None, rt) == Ok(None)
  {
  }

  ghost predicate AllCarry(endpoints: seq<Endpoint>) {
    forall e | e in endpoints :: Carries(e)
  }

  lemma {:induction false} EndpointsCarry(items: seq<Item<Endpoint>>, rt: Runtime)
    requires forall item | item in items && item.Doc? :: Fingerprint(item.doc).Some?
    ensures AddEndpoints(items, rt).Ok? ==> AllCarry(AddEndpoints(items, rt).value.endpoints)
  {
    hide NormalizeEndpoint, Fingerprint, Carries;
    if items != [] && AddEndpoints(items, rt).Ok? {
      var front, last := items[..|items| - 1], items[|items| - 1];
      assert last in items && forall item | item in front :: item in items;
      EndpointsCarry(front, rt);
      var reg := AddEndpoints(front, rt).value;
      var e := NormalizeEndpoint(last.doc, reg.ids, rt).value;
      UrlIsKept(last.doc, reg.ids, rt, e);
      HasUrl(e);
    }
  }

  lemma {:induction false} MethodsCarry(reg: Registry, items: seq<Item<Access>>, allowLegacy: bool, rt: Runtime)
    requires Sound(reg) && AllCarry(reg.endpoints)
    ensures AddAccessMethods(reg, items, allowLegacy, rt).Ok? ==>
              AllCarry(AddAccessMethods(reg, items, allowLegacy, rt).value.registry.endpoints)
  {
    hide LinkOf, NormalizeAccessType, AccessIdOf, FindById, CredentialsValid, WriteAccess, AllCarry, Sound;
    if items != [] && AddAccessMethods(reg, items, allowLegacy, rt).Ok? {
      var front, last := items[..|items| - 1], items[|items| - 1];
      MethodsCarry(reg, front, allowLegacy, rt);
      AddAccessMethodsOk(reg, front, allowLegacy, rt);
      var st := AddAccessMethods(reg, front, allowLegacy, rt).value;
      LinkCarries(st.registry, last.doc, allowLegacy, rt);
    }
  }

  lemma LinkCarries(reg: Registry, raw: Access, allowLegacy: bool, rt: Runtime)
    requires AllCarry(reg.endpoints)
    ensures LinkOf(reg, raw, allowLegacy, rt).Ok? ==> AllCarry(LinkOf(reg, raw, allowLegacy, rt).value.registry.endpoints)
  {
    hide NormalizeEndpoint, Promotion, Strip, IsIdentifier, Carries, Fingerprint, IsBlank;
    if LinkOf(reg, raw, allowLegacy, rt).Ok? && LinkOf(reg, raw, allowLegacy, rt).value.registry != reg {
      var text := Get(raw.endpoint).text;
      var e := NormalizeEndpoint(Promotion(raw, text, rt), reg.ids, rt).value;
      PromotedFingerprint(raw, text, reg.ids, rt, e);
      HasUrl(e);
    }
  }

  lemma IdOnlyIsListed(st: AccessState, raw: Access, allowLegacy: bool, rt: Runtime)
    requires MethodsOk(st) && AllCarry(st.registry.endpoints) && AddAccess(st, Doc(raw), allowLegacy, rt).Ok?
    requires GivenUrl(raw, allowLegacy).None? && Get(raw.endpointId) != JNull
    ensures Carried(Get(raw.endpointId), st.registry.endpoints)
  {
    hide LinkOf, NormalizeAccessType, AccessIdOf, FindById, CredentialsValid, WriteAccess, OutputAccess, GivenUrl, Carries, RegistryOk;
    var link := LinkOf(st.registry, raw, allowLegacy, rt).value;
    LinkIndex(st.registry, raw, allowLegacy, rt, link);
    FindByIdFinds(st.registry.endpoints, Get(raw.endpointId));
  }

  /** Whether the pass is stable can be seen without following it, on documents whose endpoints are
      plain, whose access methods give tidy URLs, and whose endpoints all have a URL if some method names
      one by its id alone. */
  lemma Idempotent(data: Data, isService: bool, allowLegacy: bool, rt: Runtime, out: Data)
    requires rt.Lawful() && NormalizeData(data, isService, allowLegacy, rt) == Ok(out)
    requires forall raw | raw in ObjectsOf(data.endpoints) :: IsPlain(raw, rt)
    requires forall raw | raw in ObjectsOf(data.accessMethods) && GivenUrl(raw, allowLegacy).Some? ::
               TidyHost(GivenUrl(raw, allowLegacy).value, rt)
    requires (forall raw | raw in ObjectsOf(data.accessMethods) :: GivenUrl(raw, allowLegacy).Some? || Get(raw.endpointId) == JNull)
             || (forall raw | raw in ObjectsOf(data.endpoints) :: Fingerprint(raw).Some?)
    ensures NormalizeData(out, isService, allowLegacy, rt) == Ok(out)
  {
    hide NormalizeData, AddEndpoints, AddAccessMethods, Objects, IsPlain, Harmless, TidyHost, GivenUrl, Fingerprint;
    hide IsPromoted, Carried, MethodsOk, AllCarry, AddAccess;
    var endpoints, methods, reg, st := PartsOfPass(data, isService, allowLegacy, rt, out);
    DocsAreObjects(endpoints);
    DocsAreObjects(methods);
    forall i | 0 <= i < |endpoints| && IsKept(endpoints, i) ensures Harmless(endpoints[i].doc, rt) {
      assert endpoints[i] in endpoints;
      PlainIsHarmless(endpoints[i].doc, rt);
    }
    forall i | 0 <= i < |methods| && methods[i].Doc?
      ensures TurnIsSettled(methods[i].doc, endpoints, methods[..i], RegistryAt(endpoints, methods, i, allowLegacy, rt), allowLegacy, rt)
    {
      var raw := methods[i].doc;
      if IsPromoted(raw, endpoints, methods[..i], allowLegacy) {
        PromotedGivesUrl(raw, endpoints, methods[..i], allowLegacy);
      }
      if GivenUrl(raw, allowLegacy).None? && Get(raw.endpointId) != JNull {
        var before := TurnBefore(reg, methods, i, allowLegacy, rt);
        AddEndpointsSound(endpoints, rt);
        EndpointsCarry(endpoints, rt);
        MethodsCarry(reg, methods[..i], allowLegacy, rt);
        AddAccessMethodsOk(reg, methods[..i], allowLegacy, rt);
        IdOnlyIsListed(before, raw, allowLegacy, rt);
      }
    }
    StableIff(data, isService, allowLegacy, rt, out);
  }

  lemma PromotedGivesUrl(raw: Access, endpoints: seq<Item<Endpoint>>, earlier: seq<Item<Access>>, allowLegacy: bool)
    requires IsPromoted(raw, endpoints, earlier, allowLegacy)
    ensures GivenUrl(raw, allowLegacy).Some?
  {
  }

  /** The state before the turn of the method at `i`, which an accepted list accepts. */
  lemma {:induction false} TurnBefore(reg: Registry, methods: seq<Item<Access>>, i: nat, allowLegacy: bool, rt: Runtime)
    returns (st: AccessState)
    requires i < |methods| && AddAccessMethods(reg, methods, allowLegacy, rt).Ok?
    ensures AddAccessMethods(reg, methods[..i], allowLegacy, rt) == Ok(st) && AddAccess(st, methods[i], allowLegacy, rt).Ok?
    decreases |methods|
  {
    hide AddAccess;
    if i == |methods| - 1 {
      st := AddAccessMethods(reg, methods[..i], allowLegacy, rt).value;
    } else {
      var front := methods[..|methods| - 1];
      st := TurnBefore(reg, front, i, allowLegacy, rt);
      assert front[..i] == methods[..i];
    }
  }

  lemma {:induction false} DocsAreObjects<T>(items: seq<Item<T>>)
    ensures forall item | item in items && item.Doc? :: item.doc in Objects(items)
  {
    if items != [] {
      DocsAreObjects(items[..|items| - 1]);
      assert items == items[..|items| - 1] + [items[|items| - 1]];
    }
  }

  // The pass after the next.

  /** No hazard applies to a canonical endpoint, whatever hazard applied to its source. */
  lemma OutputIsHarmless(raw: Endpoint, used: set<string>, rt: Runtime, e: Endpoint)
    requires rt.Lawful() && NormalizeEndpoint(raw, used, rt) == Ok(e)
    ensures Harmless(e, rt)
  {
    hide FactsOf, IdOf, IsIdentifier, ParseUrl, NormalizeType, TransportOf, PathOf, ExposureOf, Strip, UrlProtocol, IsTransport, IsProtocol;
    hide OptionalText, HostOf, UrlHasPath;
    var f, id := NormalizedParts(raw, used, rt, e);
    FactsAgree(raw, f, rt);
    var own, parsed :| Agrees(raw, f, own, parsed, rt);
    PathIsNotEmpty(Get(raw.path), parsed, f.path);
    ChosenIsProtocol(Get(raw.protocol), UrlProtocol(parsed, rt), f.kind, rt, f.protocol);
    ProtocolsAreLower(f.protocol, rt);
    if FactsOf(e, rt).Ok? {
      var g := FactsOf(e, rt).value;
      UrlAgain(raw, f, id, rt);
      UrlAgain(e, g, id, rt);
      assert g.url == f.url;
      HostIsWritten(raw, f, id, own, parsed);
    }
  }

  lemma PathIsNotEmpty(path: Json, parsed: Option<Url>, p: Option<string>)
    requires PathOf(path, parsed) == Ok(p)
    ensures p != Some("")
  {
    hide Strip;
    BlankEmpty();
  }

  lemma ChosenIsProtocol(protocol: Json, urlProtocol: Option<string>, kind: string, rt: Runtime, p: string)
    requires ProtocolOf(protocol, urlProtocol, kind, rt) == Ok(p)
    ensures IsProtocol(p)
  {
    hide IsProtocol, TypeProtocol;
  }

  lemma HostIsWritten(raw: Endpoint, f: Facts, id: string, own: Option<string>, parsed: Option<Url>)
    requires HostOf(own, f.url, parsed) == f.host
    ensures parsed.Some? && parsed.value.hostname != "" ==> Get(Write(raw, f, id).host) != JNull
  {
  }

  ghost predicate AllHarmless(endpoints: seq<Endpoint>, rt: Runtime) {
    forall e | e in endpoints :: Harmless(e, rt)
  }

  lemma {:induction false} EndpointsAreHarmless(items: seq<Item<Endpoint>>, rt: Runtime)
    requires rt.Lawful() && AddEndpoints(items, rt).Ok?
    ensures AllHarmless(AddEndpoints(items, rt).value.endpoints, rt)
  {
    hide NormalizeEndpoint, Fingerprint, Harmless;
    if items != [] {
      var front, last := items[..|items| - 1], items[|items| - 1];
      EndpointsAreHarmless(front, rt);
      var reg := AddEndpoints(front, rt).value;
      OutputIsHarmless(last.doc, reg.ids, rt, NormalizeEndpoint(last.doc, reg.ids, rt).value);
    }
  }

  lemma LinkIsHarmless(reg: Registry, raw: Access, allowLegacy: bool, rt: Runtime)
    requires rt.Lawful() && AllHarmless(reg.endpoints, rt) && LinkOf(reg, raw, allowLegacy, rt).Ok?
    ensures AllHarmless(LinkOf(reg, raw, allowLegacy, rt).value.registry.endpoints, rt)
  {
    hide NormalizeEndpoint, Promotion, Strip, IsIdentifier, Harmless, IsBlank;
    if LinkOf(reg, raw, allowLegacy, rt).value.registry != reg {
      var p := Promotion(raw, Get(raw.endpoint).text, rt);
      OutputIsHarmless(p, reg.ids, rt, NormalizeEndpoint(p, reg.ids, rt).value);
    }
  }

  lemma {:induction false} RegistryIsHarmless(reg: Registry, items: seq<Item<Access>>, allowLegacy: bool, rt: Runtime)
    requires rt.Lawful() && AllHarmless(reg.endpoints, rt) && AddAccessMethods(reg, items, allowLegacy, rt).Ok?
    ensures AllHarmless(AddAccessMethods(reg, items, allowLegacy, rt).value.registry.endpoints, rt)
  {
    hide LinkOf, NormalizeAccessType, AccessIdOf, FindById, CredentialsValid, WriteAccess, AllHarmless;
    if items != [] {
      var front, last := items[..|items| - 1], items[|items| - 1];
      RegistryIsHarmless(reg, front, allowLegacy, rt);
      LinkIsHarmless(AddAccessMethods(reg, front, allowLegacy, rt).value.registry, last.doc, allowLegacy, rt);
    }
  }

  /** The method names no endpoint, or gives a URL too. */
  predicate IsAddressed(m: Access, allowLegacy: bool) {
    GivenUrl(m, allowLegacy).None? ==> Get(m.endpointId) == JNull
  }

  lemma OutputIsAddressed(m: Access, reg: Registry, allowLegacy: bool)
    requires OutputAccess(m, reg)
    ensures IsAddressed(m, allowLegacy)
  {
    hide IsIdentifier, Strip, IsBlank, CredentialsValid, EndpointUrl;
  }

  /** Methods that give their URL are well named once they are written. */
  lemma {:induction false} AddressedAreWellNamed(reg: Registry, items: seq<Item<Access>>, allowLegacy: bool, rt: Runtime)
    requires rt.Lawful() && Sound(reg) && AddAccessMethods(reg, items, allowLegacy, rt).Ok?
    requires forall item | item in items && item.Doc? :: IsAddressed(item.doc, allowLegacy)
    ensures var st := AddAccessMethods(reg, items, allowLegacy, rt).value;
            MethodsOk(st) && AllWellNamed(st.methods, st.registry.endpoints)
  {
    hide LinkOf, NormalizeAccessType, AccessIdOf, FindById, CredentialsValid, WriteAccess, OutputAccess, Sound, IsIdentifier;
    hide GivenUrl, WellNamed;
    AddAccessMethodsOk(reg, items, allowLegacy, rt);
    if items != [] {
      var front, last := items[..|items| - 1], items[|items| - 1];
      assert last in items && forall item | item in front :: item in items;
      AddressedAreWellNamed(reg, front, allowLegacy, rt);
      var st := AddAccessMethods(reg, front, allowLegacy, rt).value;
      var next := AddAccess(st, last, allowLegacy, rt).value;
      AddAccessOk(st, last, allowLegacy, rt, next);
      AllWellNamedStays(st, next.registry);
      var raw := last.doc;
      var link := LinkOf(st.registry, raw, allowLegacy, rt).value;
      var kind := NormalizeAccessType(Get(raw.kind), rt).value;
      var id := AccessIdOf(raw, kind, link.endpointId, st.ids, rt).value;
      var target := FindById(link.registry.endpoints, link.endpointId);
      WrittenIsWellNamed(st.registry, raw, allowLegacy, rt, link, kind, id, target);
      assert forall d :: d in next.methods <==> d in st.methods || d == WriteAccess(raw, link, kind, id, target);
    }
  }

  /** The URL of a well-named method is the URL of an endpoint, so the method is not promoted. */
  lemma WellNamedIsNotPromoted(m: Access, reg: Registry, earlier: seq<Item<Access>>, at: Registry, allowLegacy: bool, rt: Runtime)
    requires Sound(reg) && OutputAccess(m, reg) && WellNamed(m, reg.endpoints)
    ensures TurnIsSettled(m, Docs(reg.endpoints), earlier, at, allowLegacy, rt)
    ensures !IsPromoted(m, Docs(reg.endpoints), earlier, allowLegacy)
  {
    hide IsIdentifier, Strip, IsBlank, CredentialsValid, EndpointUrl, RegistryOf, OutputEndpoint, Fingerprint, TidyHost, IsGivenBy, Carries;
    OutputIsAddressed(m, reg, allowLegacy);
    if Get(m.endpointId) != JNull {
      var e :| e in reg.endpoints && Names(m, e, reg);
      var d :| d in reg.endpoints && d.id == m.endpointId && Carries(d);
      SameIdSameEndpoint(reg, d, e);
      var i :| 0 <= i < |reg.endpoints| && reg.endpoints[i] == e;
      assert Docs(reg.endpoints)[i] == Doc(e) && Doc(e) in Docs(reg.endpoints);
    }
  }

  /** What an accepted second pass writes needs at most one pass more to be stable. */
  lemma SecondOutputNeedsOnePass(out: Data, isService: bool, allowLegacy: bool, rt: Runtime, again: Data)
    requires rt.Lawful() && NormalizeData(out, isService, allowLegacy, rt) == Ok(again)
    requires forall m | m in ObjectsOf(out.accessMethods) :: IsAddressed(m, allowLegacy)
    ensures OnePassIsEnough(again, allowLegacy, rt)
  {
    hide NormalizeData, AddEndpoints, AddAccessMethods, Harmless, Objects, IsAddressed, Sound, OutputAccess, WellNamed;
    hide TurnIsSettled, RegistryAt, IsKept;
    var endpoints, methods, reg, st := PartsOfPass(out, isService, allowLegacy, rt, again);
    AddEndpointsSound(endpoints, rt);
    DocsAreObjects(methods);
    EndpointsAreHarmless(endpoints, rt);
    RegistryIsHarmless(reg, methods, allowLegacy, rt);
    AddressedAreWellNamed(reg, methods, allowLegacy, rt);
    var endpoints', methods' := Docs(st.registry.endpoints), Docs(st.methods);
    forall i | 0 <= i < |methods'| && methods'[i].Doc?
      ensures TurnIsSettled(methods'[i].doc, endpoints', methods'[..i], RegistryAt(endpoints', methods', i, allowLegacy, rt), allowLegacy, rt)
    {
      assert st.methods[i] in st.methods;
      WellNamedIsNotPromoted(st.methods[i], st.registry, methods'[..i], RegistryAt(endpoints', methods', i, allowLegacy, rt), allowLegacy, rt);
    }
  }

  /** If the second and the third pass accept, which they need not, a fourth changes nothing. */
  lemma ThirdOutputIsStable(data: Data, isService: bool, allowLegacy: bool, rt: Runtime, out: Data, again: Data, third: Data)
    requires rt.Lawful() && NormalizeData(data, isService, allowLegacy, rt) == Ok(out)
    requires NormalizeData(out, isService, allowLegacy, rt) == Ok(again)
    requires NormalizeData(again, isService, allowLegacy, rt) == Ok(third)
    ensures NormalizeData(third, isService, allowLegacy, rt) == Ok(third)
  {
    hide NormalizeData, AddEndpoints, AddAccessMethods, OnePassIsEnough, OutputAccess, ObjectsOf, IsAddressed, Docs;
    var endpoints, methods, reg, st := PartsOfPass(data, isService, allowLegacy, rt, out);
    AddEndpointsSound(endpoints, rt);
    AddAccessMethodsOk(reg, methods, allowLegacy, rt);
    forall m | m in ObjectsOf(out.accessMethods) ensures IsAddressed(m, allowLegacy) {
      OutputIsAddressed(m, st.registry, allowLegacy);
    }
    SecondOutputNeedsOnePass(out, isService, allowLegacy, rt, again);
    StableIff(again, isService, allowLegacy, rt, third);
  }
}
