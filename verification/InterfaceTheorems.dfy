/** The promises of `normalize_interface_data`, stated on whole documents. */
module InterfaceTheorems {
  import opened JsonValues
  import opened Wrappers
  import opened Texts
  import opened Interfaces
  import opened InterfaceFacts
  import opened InterfaceDocuments
  import opened InterfaceCanonical
  import opened InterfaceSecondPass

  function Objects<T>(items: seq<Item<T>>): seq<T> {
    if items == [] then []
    else Objects(items[..|items| - 1]) + (if items[|items| - 1].Doc? then [items[|items| - 1].doc] else [])
  }

  function ObjectsOf<T>(field: Option<Listed<T>>): seq<T> {
    if field.Some? && field.value.Items? then Objects(field.value.items) else []
  }

  lemma {:induction false} ObjectsOfDocs<T>(s: seq<T>)
    ensures Objects(Docs(s)) == s
  {
    if s != [] {
      DocsPrefix(s);
      ObjectsOfDocs(s[..|s| - 1]);
      assert s == s[..|s| - 1] + [s[|s| - 1]];
    }
  }

  lemma OutputLists(out: Data, st: AccessState, ports: PortState, isService: bool, rt: Runtime)
    requires WrittenFrom(out, st, ports, isService, rt)
    ensures ObjectsOf(out.endpoints) == st.registry.endpoints && ObjectsOf(out.accessMethods) == st.methods
    ensures ObjectsOf(out.ports) == ports.ports
  {
    hide MethodsOk, PortList, ServiceInterface, Objects, SocketsOf;
    ObjectsOfDocs(st.registry.endpoints);
    ObjectsOfDocs(st.methods);
    ObjectsOfDocs(ports.ports);
  }

  /** On every accepted input: endpoint ids are valid and distinct, endpoint URLs distinct, access ids
      distinct, every named endpoint exists, kept ports are distinct and not those of an endpoint, and a
      service is available exactly when it has endpoints. */
  lemma CanonicalDocument(data: Data, isService: bool, allowLegacy: bool, rt: Runtime, out: Data)
    requires NormalizeData(data, isService, allowLegacy, rt) == Ok(out)
    ensures var endpoints := ObjectsOf(out.endpoints);
            && (forall e | e in endpoints :: Get(e.id).JText? && IsIdentifier(IdText(e)))
            && (forall i, j | 0 <= i < j < |endpoints| :: IdText(endpoints[i]) != IdText(endpoints[j]))
            && (forall i, j | 0 <= i < j < |endpoints| && Fingerprint(endpoints[i]).Some? ::
                  Fingerprint(endpoints[i]) != Fingerprint(endpoints[j]))
    ensures var methods := ObjectsOf(out.accessMethods);
            && (forall i, j | 0 <= i < j < |methods| :: Get(methods[i].id) != Get(methods[j].id))
            && (forall m | m in methods && Get(m.endpointId) != JNull ::
                  exists e :: e in ObjectsOf(out.endpoints) && e.id == Some(Get(m.endpointId)))
    ensures var ports := ObjectsOf(out.ports);
            && (forall i, j | 0 <= i < j < |ports| :: SocketOf(ports[i]) != SocketOf(ports[j]))
            && (forall p | p in ports :: SocketOf(p) !in SocketsOf(ObjectsOf(out.endpoints)))
    ensures isService ==> out.interface_.InterfaceDoc?
                          && (Get(out.interface_.state) == JText("available") <==> ObjectsOf(out.endpoints) != [])
  {
    hide ServiceInterface, SocketOf, SocketsOf, Fingerprint, OutputAccess, IsIdentifier, NormalizeData, NormalizePort, RegistryOf;
    var st, ports := CanonicalParts(data, isService, allowLegacy, rt, out);
    OutputLists(out, st, ports, isService, rt);
    MethodsAreListed(st);
    SoundIsDistinct(st.registry);
    forall m | m in st.methods && Get(m.endpointId) != JNull
      ensures exists e :: e in st.registry.endpoints && e.id == Some(Get(m.endpointId))
    {
      NamedExists(m, st.registry);
    }
    if isService {
      Availability(out, st.registry.endpoints != [], rt);
    }
  }

  lemma Availability(out: Data, has: bool, rt: Runtime)
    requires ServiceInterface(out, has, rt) == Ok(out.interface_)
    ensures out.interface_.InterfaceDoc? && (Get(out.interface_.state) == JText("available") <==> has)
  {
  }

  /** A second pass accepts its input, returns it unchanged and so reports no change, exactly when every
      endpoint is fixed and every method that names an endpoint names one that carries a URL. */
  lemma SettledIff(data: Data, isService: bool, allowLegacy: bool, rt: Runtime, out: Data)
    requires rt.Lawful() && NormalizeData(data, isService, allowLegacy, rt) == Ok(out)
    ensures NormalizeData(out, isService, allowLegacy, rt) == Ok(out) <==>
            && AllFixed(ObjectsOf(out.endpoints), rt)
            && AllWellNamed(ObjectsOf(out.accessMethods), ObjectsOf(out.endpoints))
  {
    hide NormalizeData, WrittenFrom, AllFixed, AllWellNamed;
    var st, ports := CanonicalParts(data, isService, allowLegacy, rt, out);
    OutputLists(out, st, ports, isService, rt);
    SecondPassIff(out, st, ports, isService, allowLegacy, rt);
  }
}
