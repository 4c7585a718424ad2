/** Typed references of the form `kind:id`. */
module References {
  import opened Wrappers

  datatype Kind = Host | System | Network | Device | Service | CredentialReference | Runbook | Decision | Project

  datatype TypedReference = TypedReference(kind: Kind, objectId: string)

  function KindName(kind: Kind): (r: string)
    ensures ':' !in r
  {
    match kind
    case Host => "host"
    case System => "system"
    case Network => "network"
    case Device => "device"
    case Service => "service"
    case CredentialReference => "credential_reference"
    case Runbook => "runbook"
    case Decision => "decision"
    case Project => "project"
  }

  /** Membership in the vocabulary of reference kinds. */
  function KindOf(name: string): (r: Option<Kind>)
    ensures r.Some? ==> KindName(r.value) == name
  {
    if name == "host" then Some(Host)
    else if name == "system" then Some(System)
    else if name == "network" then Some(Network)
    else if name == "device" then Some(Device)
    else if name == "service" then Some(Service)
    else if name == "credential_reference" then Some(CredentialReference)
    else if name == "runbook" then Some(Runbook)
    else if name == "decision" then Some(Decision)
    else if name == "project" then Some(Project)
    else None
  }

  lemma KindOfName(kind: Kind)
    ensures KindOf(KindName(kind)) == Some(kind)
  {
    match kind
    case Host => case System => case Network => case Device => case Service =>
    case CredentialReference => case Runbook => case Decision => case Project =>
  }

  /** Position of the first colon, the length when there is none. */
  function ColonAt(value: string): (i: nat)
    ensures i <= |value| && ':' !in value[..i] && (i < |value| ==> value[i] == ':')
  {
    if value == [] || value[0] == ':' then 0
    else
      var i := 1 + ColonAt(value[1..]);
      assert value[..i] == [value[0]] + value[1..][..i - 1];
      i
  }

  lemma {:induction false} ColonAtName(name: string, value: string)
    requires |name| < |value| && value[..|name|] == name && value[|name|] == ':' && ':' !in name
    ensures ColonAt(value) == |name|
  {
    if name != [] {
      assert value[0] == name[0];
      assert value[1..][..|name| - 1] == name[1..];
      ColonAtName(name[1..], value[1..]);
    }
  }

  /** `TypedReference.parse`, with `None` for each `ValueError`. */
  function Parse(value: string): Option<TypedReference> {
    var i := ColonAt(value);
    if i == |value| || i + 1 == |value| then None
    else
      match KindOf(value[..i])
      case None => None
      case Some(kind) => Some(TypedReference(kind, value[i + 1..]))
  }

  /** `str(reference)`. */
  function Render(reference: TypedReference): string {
    KindName(reference.kind) + ":" + reference.objectId
  }

  /** Exactly the rendered references with a non-empty id parse, and they parse to themselves. */
  lemma ParseIffRendered(value: string, reference: TypedReference)
    ensures Parse(value) == Some(reference) <==> value == Render(reference) && reference.objectId != ""
  {
    var i := ColonAt(value);
    var name := KindName(reference.kind);
    if Parse(value) == Some(reference) {
      assert value == value[..i] + [value[i]] + value[i + 1..];
    }
    if value == Render(reference) && reference.objectId != "" {
      assert value[|name|] == ':' && value[..|name|] == name;
      ColonAtName(name, value);
      assert value[i + 1..] == reference.objectId;
      KindOfName(reference.kind);
    }
  }
}
