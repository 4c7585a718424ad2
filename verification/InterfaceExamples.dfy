/** Concrete documents on which one pass does not reach a fixed point. */
module InterfaceExamples {
  import opened JsonValues
  import opened Wrappers
  import opened Texts
  import opened Interfaces
  import opened InterfaceFacts
  import opened InterfaceDocuments
  import opened InterfaceCanonical
  import opened InterfaceSecondPass
  import opened InterfaceTheorems
  import opened InterfaceStability
  import opened InterfaceAcceptance

  /** A runtime that splits `http://HOST/p` URLs: the host name is read as it stands. */
  function Sample(hostname: string): Runtime {
    Runtime(s => AsciiLower(s), s => AsciiLower(s),
            u => if u == SampleUrl(hostname) then Ok(Url("http", hostname, Ok(None), "/p")) else Err(InterfaceError), _ => "")
  }

  function SampleUrl(hostname: string): string {
    "http://" + hostname + "/p"
  }

  const BLANK: Endpoint :=
    Endpoint(Some(JText("a")), None, None, None, None, None, None, None, None, None, None, None, map[])

  function WithUrl(hostname: string, path: Option<Json>): Endpoint {
    BLANK.(url := Some(JText(SampleUrl(hostname))), path := path)
  }

  lemma SampleText(hostname: string)
    ensures Strip(SampleUrl(hostname)) == SampleUrl(hostname) && Contains(SampleUrl(hostname), "://")
    ensures Sample(hostname).lower("http") == "http" && Sample(hostname).casefold("http") == "http"
    ensures IsProtocol("http") && Sample(hostname).Lawful()
  {
    NoOuterSpace(SampleUrl(hostname));
    assert "://" <= SampleUrl(hostname)[4..];
    LowersTo("http", "http");
  }

  lemma SampleParsed(hostname: string)
    ensures ParseUrl(Some(SampleUrl(hostname)), Sample(hostname)) == Ok(Some(Url("http", hostname, Ok(None), "/p")))
  {
    hide Contains, Strip, IsProtocol;
    SampleText(hostname);
  }

  lemma SampleFacts(hostname: string, path: Option<Json>)
    requires hostname != "" && (path == None || path == Some(JText("")))
    ensures FactsOf(WithUrl(hostname, path), Sample(hostname))
            == Ok(Facts(Some(SampleUrl(hostname)), Some(hostname), "HTTP", "http", "tcp", Some(80),
                        if path == None then Some("/p") else None, "unknown"))
  {
    hide Strip, Contains, IsProtocol, AsciiLower, ParseUrl;
    var rt, e := Sample(hostname), WithUrl(hostname, path);
    SampleText(hostname);
    SampleParsed(hostname);
    var parsed := Some(Url("http", hostname, Ok(None), "/p"));
    assert UrlProtocol(parsed, rt) == Some("http");
    assert NormalizeType(JNull, Some("http"), rt) == Ok("HTTP");
    SlashIsText();
    var f := Facts(Some(SampleUrl(hostname)), Some(hostname), "HTTP", "http", "tcp", Some(80),
                   if path == None then Some("/p") else None, "unknown");
    assert OptionalText(Get(e.url)) == Ok(f.url);
    assert Agrees(e, f, None, parsed, rt);
    FactsAgree(e, f, rt);
  }

  lemma SlashIsText()
    ensures !IsBlank("/p")
  {
    NoOuterSpace("/p");
  }

  lemma PlainId(f: Facts, raw: Endpoint, rt: Runtime)
    requires FactsOf(raw, rt) == Ok(f) && raw.id == Some(JText("a")) && raw.healthUrl == None
    ensures NormalizeEndpoint(raw, {}, rt) == Ok(Write(raw, f, "a"))
  {
    hide FactsOf;
    IdAgain("a", f.kind, f.port, f.host, {}, rt);
  }

  /** An explicit empty path is dropped by the first pass, and the second takes the URL's path. */
  lemma EmptyPathIsNotStable()
    ensures exists e :: NormalizeEndpoint(WithUrl("h", Some(JText(""))), {}, Sample("h")) == Ok(e)
                        && NormalizeEndpoint(e, {}, Sample("h")) != Ok(e)
  {
    hide FactsOf, NormalizeEndpoint, ParseUrl;
    var raw, rt := WithUrl("h", Some(JText(""))), Sample("h");
    SampleText("h");
    SampleParsed("h");
    SampleFacts("h", Some(JText("")));
    var f := FactsOf(raw, rt).value;
    PlainId(f, raw, rt);
    EndpointFixedIff(raw, {}, rt, Write(raw, f, "a"), f, {});
  }

  lemma UntidyHostIsHazard(f: Facts)
    requires f.url == Some(SampleUrl(" h"))
    ensures Hazard(WithUrl(" h", None), f, Sample(" h"))
  {
    hide ParseUrl;
    SampleParsed(" h");
    StripAgain(" h");
    assert Strip(" h") != " h" by {
      if Strip(" h") != [] {
        assert !IsSpace(Strip(" h")[0]);
      }
    }
  }

  /** `http:// h/p`: a host name that starts with a blank is trimmed by the second pass. */
  lemma UntidyHostIsNotStable()
    ensures exists e :: NormalizeEndpoint(WithUrl(" h", None), {}, Sample(" h")) == Ok(e)
                        && NormalizeEndpoint(e, {}, Sample(" h")) != Ok(e)
  {
    hide FactsOf, NormalizeEndpoint, Hazard, ParseUrl;
    var raw, rt := WithUrl(" h", None), Sample(" h");
    SampleText(" h");
    SampleFacts(" h", None);
    var f := FactsOf(raw, rt).value;
    PlainId(f, raw, rt);
    UntidyHostIsHazard(f);
    EndpointFixedIff(raw, {}, rt, Write(raw, f, "a"), f, {});
  }

  lemma BlankHostIsHazard(f: Facts)
    requires f.url == Some(SampleUrl(" "))
    ensures IsFatal(WithUrl(" ", None), f, Sample(" "))
  {
    hide ParseUrl;
    SampleParsed(" ");
    BlankIsBlank();
  }

  lemma BlankIsBlank()
    ensures Strip(" ") == "" && IsBlank(" ")
  {
  }

  /** `http:// /p`: a host name that is a blank is rejected by the second pass. */
  lemma BlankHostIsRejected()
    ensures exists e :: NormalizeEndpoint(WithUrl(" ", None), {}, Sample(" ")) == Ok(e) && NormalizeEndpoint(e, {}, Sample(" ")).Err?
  {
    hide FactsOf, NormalizeEndpoint, IsFatal, ParseUrl;
    var raw, rt := WithUrl(" ", None), Sample(" ");
    SampleText(" ");
    SampleFacts(" ", None);
    var f := FactsOf(raw, rt).value;
    PlainId(f, raw, rt);
    BlankHostIsHazard(f);
    AcceptedAgainIff(raw, {}, rt, Write(raw, f, "a"));
  }

  /** An SSH endpoint that spells its protocol `TCP` comes out as `tcp`, which the second pass takes
      for a transport and replaces by the type's own protocol. */
  function Shouting(): Endpoint {
    BLANK.(kind := Some(JText("SSH")), host := Some(JText("h")), protocol := Some(JText("TCP")))
  }

  lemma ShoutingFacts()
    ensures FactsOf(Shouting(), Sample("h")) == Ok(Facts(None, Some("h"), "SSH", "tcp", "tcp", None, None, "unknown"))
    ensures Sample("h").lower("TCP") == "tcp" && Sample("h").Lawful()
  {
    hide Strip, IsProtocol, AsciiLower;
    var rt, e := Sample("h"), Shouting();
    LowersTo("TCP", "tcp");
    LowersTo("SSH", "ssh");
    NoOuterSpace("h");
    NoOuterSpace("SSH");
    TransportsAreProtocols();
    assert NormalizeType(JText("SSH"), Some("TCP"), rt) == Ok("SSH");
    var f := Facts(None, Some("h"), "SSH", "tcp", "tcp", None, None, "unknown");
    assert Agrees(e, f, Some("h"), None, rt);
    FactsAgree(e, f, rt);
  }

  lemma ShoutingIsNotStable()
    ensures exists e :: NormalizeEndpoint(Shouting(), {}, Sample("h")) == Ok(e)
                        && NormalizeEndpoint(e, {}, Sample("h")) != Ok(e)
  {
    hide FactsOf;
    var raw, rt := Shouting(), Sample("h");
    ShoutingFacts();
    var f := FactsOf(raw, rt).value;
    PlainId(f, raw, rt);
    EndpointFixedIff(raw, {}, rt, Write(raw, f, "a"), f, {});
  }

  /** An endpoint of a custom type that spells its protocol `TCP`: the second pass takes `tcp` for a
      transport, and the type has no protocol of its own. */
  function Custom(): Endpoint {
    BLANK.(kind := Some(JText("x-foo")), host := Some(JText("h")), protocol := Some(JText("TCP")))
  }

  lemma CustomType(rt: Runtime)
    requires rt == Sample("h")
    ensures NormalizeType(JText("x-foo"), Some("TCP"), rt) == Ok("x-foo") && TypeProtocol("x-foo") == None
  {
    hide Strip, AsciiLower;
    assert IsCustomType("x-foo");
    CustomTypesAreFixed("x-foo");
    NoOuterSpace("x-foo");
  }

  lemma CustomFacts()
    ensures FactsOf(Custom(), Sample("h")) == Ok(Facts(None, Some("h"), "x-foo", "tcp", "tcp", None, None, "unknown"))
    ensures Sample("h").lower("TCP") == "tcp" && Sample("h").Lawful()
  {
    hide Strip, IsProtocol, AsciiLower, IsCustomType, TypeAlias;
    var rt, e := Sample("h"), Custom();
    LowersTo("TCP", "tcp");
    NoOuterSpace("h");
    TransportsAreProtocols();
    CustomType(rt);
    var f := Facts(None, Some("h"), "x-foo", "tcp", "tcp", None, None, "unknown");
    assert Agrees(e, f, Some("h"), None, rt);
    FactsAgree(e, f, rt);
  }

  lemma CustomIsRejected()
    ensures exists e :: NormalizeEndpoint(Custom(), {}, Sample("h")) == Ok(e) && NormalizeEndpoint(e, {}, Sample("h")).Err?
  {
    hide FactsOf, NormalizeEndpoint, AsciiLower, NormalizeType;
    var raw, rt := Custom(), Sample("h");
    CustomFacts();
    CustomType(rt);
    var f := FactsOf(raw, rt).value;
    PlainId(f, raw, rt);
    AcceptedAgainIff(raw, {}, rt, Write(raw, f, "a"));
  }

  // Access methods that name an endpoint without a URL by its id alone.

  const ADDRESS: string := "ssh://h:22"

  /** A runtime that splits `ssh://h:22`. */
  function Network(): Runtime {
    Runtime(s => AsciiLower(s), s => AsciiLower(s),
            u => if u == ADDRESS then Ok(Url("ssh", "h", Ok(Some(22)), "")) else Err(InterfaceError), _ => "")
  }

  function HostOnly(): Endpoint {
    BLANK.(kind := Some(JText("SSH")), host := Some(JText("h")))
  }

  function ById(id: string): Access {
    Access(Some(JText(id)), Some(JText("ssh")), None, Some(JText("a")), None, None, None, map[])
  }

  /** One endpoint without a URL, and the given methods. */
  function HostAnd(methods: seq<Item<Access>>): Data {
    Data(Some(Items([Doc(HostOnly())])), Some(Items(methods)), None, NoInterface, JNull, map[])
  }

  lemma HostOnlyFacts()
    ensures FactsOf(HostOnly(), Network()) == Ok(Facts(None, Some("h"), "SSH", "ssh", "tcp", Some(22), None, "unknown"))
  {
    hide Strip, IsProtocol, AsciiLower;
    var rt, raw := Network(), HostOnly();
    LowersTo("SSH", "ssh");
    NoOuterSpace("h");
    NoOuterSpace("SSH");
    SshIsProtocol();
    assert NormalizeType(JText("SSH"), None, rt) == Ok("SSH");
    var f := Facts(None, Some("h"), "SSH", "ssh", "tcp", Some(22), None, "unknown");
    assert Agrees(raw, f, Some("h"), None, rt);
    FactsAgree(raw, f, rt);
  }

  lemma HostOnlyNormalized() returns (e: Endpoint)
    ensures NormalizeEndpoint(HostOnly(), {}, Network()) == Ok(e) && e.id == Some(JText("a")) && !Carries(e) && Fingerprint(e) == None
    ensures EndpointUrl(e) == ADDRESS
  {
    hide FactsOf;
    HostOnlyFacts();
    var f := FactsOf(HostOnly(), Network()).value;
    PlainId(f, HostOnly(), Network());
    e := Write(HostOnly(), f, "a");
    assert Decimal(22) == "22";
  }

  lemma SshIsProtocol()
    ensures IsProtocol("ssh")
  {
  }

  lemma ByIdAccepted(st: AccessState, e: Endpoint, id: string)
    requires st.registry.endpoints == [e] && e.id == Some(JText("a")) && st.registry.ids == {"a"}
    requires IsIdentifier(id) && id !in st.ids
    ensures var next := AddAccess(st, Doc(ById(id)), false, Network());
            next.Ok? && next.value.registry == st.registry && next.value.ids == st.ids + {id}
  {
    hide Strip, AsciiLower, IsIdentifier;
    LowersTo("ssh", "ssh");
    NoOuterSpace("ssh");
    LetterIdentifiers();
    IdentifierIsText("a");
    IdentifierIsText(id);
    assert FindById([e], JText("a")) == Some(e);
  }

  lemma LetterIdentifiers()
    ensures IsIdentifier("a") && IsIdentifier("m") && IsIdentifier("n")
  {
  }

  lemma HostRegistered() returns (reg: Registry, e: Endpoint)
    ensures AddEndpoints([Doc(HostOnly())], Network()) == Ok(reg) && reg.endpoints == [e] && reg.ids == {"a"} && reg.byUrl == map[]
    ensures e.id == Some(JText("a")) && !Carries(e) && EndpointUrl(e) == ADDRESS
  {
    hide NormalizeEndpoint, Fingerprint, EndpointUrl;
    e := HostOnlyNormalized();
    reg := Register(EMPTY, e);
    assert [Doc(HostOnly())][..0] == [];
    assert IdText(e) == "a";
  }

  lemma OneMethod(reg: Registry, x: Item<Access>)
    ensures AddAccessMethods(reg, [x], false, Network()) == AddAccess(AccessState(reg, [], {}), x, false, Network())
  {
    hide AddAccess;
    assert [x][..0] == [];
  }

  lemma TwoMethods(reg: Registry, x: Item<Access>, y: Item<Access>, st: AccessState)
    requires AddAccess(AccessState(reg, [], {}), x, false, Network()) == Ok(st)
    ensures AddAccessMethods(reg, [x, y], false, Network()) == AddAccess(st, y, false, Network())
  {
    hide AddAccess;
    assert [x, y][..1] == [x];
    OneMethod(reg, x);
  }

  lemma AcceptedWith(methods: seq<Item<Access>>, reg: Registry)
    requires AddEndpoints([Doc(HostOnly())], Network()) == Ok(reg) && AddAccessMethods(reg, methods, false, Network()).Ok?
    ensures NormalizeData(HostAnd(methods), false, false, Network()).Ok?
    ensures ListOf(HostAnd(methods).endpoints) == Ok([Doc(HostOnly())]) && ListOf(HostAnd(methods).accessMethods) == Ok(methods)
  {
    hide AddEndpoints, AddAccessMethods, HostOnly;
  }

  lemma ByIdIsSynthesized(reg: Registry, e: Endpoint, id: string)
    requires reg.endpoints == [e] && e.id == Some(JText("a")) && !Carries(e) && EndpointUrl(e) == ADDRESS
    ensures Synthesized(ById(id), reg, false) == Some(ADDRESS)
  {
    hide Carries, EndpointUrl;
    assert FindById([e], JText("a")) == Some(e);
  }

  lemma IsLawful()
    ensures Network().Lawful()
  {
  }

  function Once(): seq<Item<Access>> {
    [Doc(ById("m"))]
  }

  function Twice(): seq<Item<Access>> {
    [Doc(ById("m")), Doc(ById("n"))]
  }

  lemma SynthesizedTwice(reg: Registry, e: Endpoint)
    requires AddEndpoints([Doc(HostOnly())], Network()) == Ok(reg) && reg.endpoints == [e] && reg.ids == {"a"}
    requires e.id == Some(JText("a")) && !Carries(e) && EndpointUrl(e) == ADDRESS
    ensures AddAccessMethods(reg, Twice(), false, Network()).Ok?
    ensures SynthesizedAt([Doc(HostOnly())], Twice(), 0, false, Network()) == Some(ADDRESS)
    ensures SynthesizedAt([Doc(HostOnly())], Twice(), 1, false, Network()) == Some(ADDRESS)
  {
    hide AddEndpoints, AddAccess, Carries, EndpointUrl, HostOnly, IsIdentifier, Synthesized, ById;
    LetterIdentifiers();
    ByIdAccepted(AccessState(reg, [], {}), e, "m");
    var st := AddAccess(AccessState(reg, [], {}), Doc(ById("m")), false, Network()).value;
    ByIdAccepted(st, e, "n");
    TwoMethods(reg, Doc(ById("m")), Doc(ById("n")), st);
    OneMethod(reg, Doc(ById("m")));
    assert Twice()[..0] == [] && Twice()[..1] == [Doc(ById("m"))];
    ByIdIsSynthesized(reg, e, "m");
    ByIdIsSynthesized(reg, e, "n");
  }

  /** Two methods that name it both get the address of the endpoint. The second pass makes a new endpoint
      of it for the first method, and then rejects the second, which names the old one. */
  lemma TwiceByIdIsRejected()
    ensures exists out :: NormalizeData(HostAnd(Twice()), false, false, Network()) == Ok(out)
                          && NormalizeData(out, false, false, Network()).Err?
  {
    hide NormalizeData, AddEndpoints, AddAccessMethods, Carries, EndpointUrl, HostOnly, SynthesizedAt, KeptMeet, PromotedMeet, Network, Strip;
    var reg, e := HostRegistered();
    IsLawful();
    SynthesizedTwice(reg, e);
    AcceptedWith(Twice(), reg);
    var out := NormalizeData(HostAnd(Twice()), false, false, Network()).value;
    assert !SynthesisIsAccepted([Doc(HostOnly())], Twice(), 1, false, Network());
    SecondPassAcceptsIff(HostAnd(Twice()), false, false, Network(), out);
  }

  lemma SynthesizedOnce(reg: Registry, e: Endpoint)
    requires AddEndpoints([Doc(HostOnly())], Network()) == Ok(reg) && reg.endpoints == [e] && reg.ids == {"a"}
    requires e.id == Some(JText("a")) && !Carries(e) && EndpointUrl(e) == ADDRESS
    ensures AddAccessMethods(reg, Once(), false, Network()).Ok?
    ensures SynthesizedAt([Doc(HostOnly())], Once(), 0, false, Network()) == Some(ADDRESS)
  {
    hide AddEndpoints, AddAccess, Carries, EndpointUrl, HostOnly, IsIdentifier, Synthesized, ById;
    LetterIdentifiers();
    ByIdAccepted(AccessState(reg, [], {}), e, "m");
    OneMethod(reg, Doc(ById("m")));
    assert Once()[..0] == [];
    ByIdIsSynthesized(reg, e, "m");
  }

  lemma AddressText()
    ensures Strip(ADDRESS) == ADDRESS && Contains(ADDRESS, "://") && !IsBlank(ADDRESS)
    ensures ParseUrl(Some(ADDRESS), Network()) == Ok(Some(Url("ssh", "h", Ok(Some(22)), "")))
  {
    NoOuterSpace(ADDRESS);
    assert "://" <= ADDRESS[3..];
  }

  lemma ByIdIsPromoted()
    ensures Promotion(WithKind(ById("m"), Network()), ADDRESS, Network())
            == BLANK.(id := None, kind := Some(JText("SSH")), url := Some(JText(ADDRESS)), exposure := Some(JText("unknown")),
                      caption := Some(JNull))
  {
    hide Strip, AsciiLower;
    LowersTo("ssh", "ssh");
    NoOuterSpace("ssh");
    assert NormalizeAccessType(JText("ssh"), Network()) == Ok("ssh");
  }

  lemma AddressIsRead()
    ensures FactsOf(Promotion(WithKind(ById("m"), Network()), ADDRESS, Network()), Network()).Ok?
  {
    hide Strip, IsProtocol, AsciiLower, ParseUrl, Contains, Promotion, WithKind;
    var rt := Network();
    AddressText();
    ByIdIsPromoted();
    LowersTo("ssh", "ssh");
    LowersTo("SSH", "ssh");
    NoOuterSpace("SSH");
    SshIsProtocol();
    var p := Promotion(WithKind(ById("m"), rt), ADDRESS, rt);
    var parsed := Some(Url("ssh", "h", Ok(Some(22)), ""));
    assert UrlProtocol(parsed, rt) == Some("ssh");
    assert NormalizeType(JText("SSH"), Some("ssh"), rt) == Ok("SSH");
    var f := Facts(Some(ADDRESS), Some("h"), "SSH", "ssh", "tcp", Some(22), None, "unknown");
    assert OptionalText(Get(p.url)) == Ok(f.url);
    assert Agrees(p, f, None, parsed, rt);
    FactsAgree(p, f, rt);
  }

  lemma NothingGiven(u: string)
    ensures !IsUrlOf(u, [Doc(HostOnly())]) && !IsGivenBy(u, Once(), false)
  {
  }

  lemma HostOnlySurvives()
    ensures KeptMeet([Doc(HostOnly())], Survives(Network())) && PromotedMeet([Doc(HostOnly())], Once(), false, HasHost(Network()))
  {
    hide FactsOf;
    HostOnlyFacts();
  }

  lemma OnceIsAccepted()
    requires SynthesizedAt([Doc(HostOnly())], Once(), 0, false, Network()) == Some(ADDRESS)
    ensures SecondPassAccepts(HostAnd(Once()), false, Network())
  {
    hide SynthesizedAt, KeptMeet, PromotedMeet, HostOnly, Network, FactsOf, IsUrlOf, IsGivenBy, Promotion, WithKind, Strip;
    HostOnlySurvives();
    AddressIsRead();
    NothingGiven(Strip(ADDRESS));
    assert SynthesisIsAccepted([Doc(HostOnly())], Once(), 0, false, Network());
  }

  /** One method alone gets the address of its endpoint too, and the second pass promotes that address
      to another endpoint. */
  lemma IdOnlyIsNotStable()
    ensures exists out, again ::
              && NormalizeData(HostAnd(Once()), false, false, Network()) == Ok(out)
              && NormalizeData(out, false, false, Network()) == Ok(again)
              && (exists d :: d in ObjectsOf(again.endpoints) && Fingerprint(d) == Some(ADDRESS))
              && !exists d :: d in ObjectsOf(out.endpoints) && Fingerprint(d) == Some(ADDRESS)
  {
    hide NormalizeData, AddEndpoints, AddAccessMethods, Carries, EndpointUrl, HostOnly, SynthesizedAt, SecondPassAccepts, Network, Strip,
         Fingerprint, ObjectsOf;
    var reg, e := HostRegistered();
    IsLawful();
    SynthesizedOnce(reg, e);
    AcceptedWith(Once(), reg);
    OnceIsAccepted();
    AddressText();
    var data := HostAnd(Once());
    var out := NormalizeData(data, false, false, Network()).value;
    SecondPassAcceptsIff(data, false, false, Network(), out);
    var again := NormalizeData(out, false, false, Network()).value;
    SynthesizedIsPromoted(data, false, false, Network(), out, again, 0);
  }
}
