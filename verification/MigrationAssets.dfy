/** The asset references of captured payloads, and the table their identities are merged into. */
module MigrationAssets {
  import opened JsonValues
  import opened Wrappers
  import opened Pagination

  /** `_asset_candidates`, as the set of objects it yields. */
  function Candidates(v: Json): set<Json>
    decreases v
  {
    match v
    case JObject(fields) =>
      (if "uuid" in fields && "browser_download_url" in fields then {v} else {})
      + (set k, c | k in fields && c in Candidates(fields[k]) :: c)
    case JList(items) => (set i, c | 0 <= i < |items| && c in Candidates(items[i]) :: c)
    case _ => {}
  }

  /** An enumeration of the references of a payload, in any order and with any repeats. */
  ghost predicate Lists(order: Json -> seq<Json>) {
    forall v, c :: c in order(v) <==> c in Candidates(v)
  }

  /** Which ids and names are canonical, and which URLs are on the source origin. */
  datatype Naming = Naming(isCanonical: string -> bool, fileName: string -> Option<string>, sourceUrl: string -> Option<string>)

  datatype Identity = Identity(id: int, uuid: string, name: string, sourceUrl: string, path: string)

  function AssetPath(uuid: string, file: string): string {
    "assets/" + uuid + "/" + file
  }

  /** `_asset_identity`. */
  function Identify(asset: Json, naming: Naming): Result<Identity, ExportError> {
    var id, uuid, url := asset.IntAt("id"), asset.TextAt("uuid"), asset.TextAt("browser_download_url");
    var name := if asset.TextAt("name").Some? && asset.TextAt("name").value != "" then asset.TextAt("name").value else "attachment";
    if id == None || id.value < 1 then Err(ExportError)
    else if uuid == None || !naming.isCanonical(uuid.value) then Err(ExportError)
    else if url == None || url.value == "" || naming.sourceUrl(url.value) == None then Err(ExportError)
    else if naming.fileName(name) == None then Err(ExportError)
    else Ok(Identity(id.value, uuid.value, name, naming.sourceUrl(url.value).value,
                     AssetPath(uuid.value, naming.fileName(name).value)))
  }

  // Merging.

  type Table = map<string, Identity>

  /** Two identities that cannot both be in one table. */
  predicate Conflict(a: Identity, b: Identity) {
    if a.uuid == b.uuid then a != b else a.path == b.path || a.id == b.id
  }

  /** The table holds the identities met, each under its own uuid. */
  ghost predicate Holds(table: Table, met: set<Identity>) {
    && (forall a | a in met :: a.uuid in table && table[a.uuid] == a)
    && (forall u | u in table :: table[u] in met && table[u].uuid == u)
  }

  ghost predicate Compatible(met: set<Identity>) {
    forall a, b | a in met && b in met :: !Conflict(a, b)
  }

  lemma HoldsOneTable(a: Table, b: Table, met: set<Identity>)
    requires Holds(a, met) && Holds(b, met)
    ensures a == b
  {
    forall u ensures u in a <==> u in b {
      if u in a {
        assert a[u] in met;
      }
      if u in b {
        assert b[u] in met;
      }
    }
    forall u | u in a ensures a[u] == b[u] {
      assert a[u] in met;
    }
  }

  /** `_merge_asset_identity`: in a table of compatible identities it fails exactly when the new one
      conflicts with one of them, and else holds it too. */
  method MergeIdentity(table: Table, identity: Identity, ghost met: set<Identity>) returns (r: Result<(Table, bool), ExportError>)
    requires Holds(table, met) && Compatible(met)
    ensures r.Ok? <==> Compatible(met + {identity})
    ensures r.Ok? ==> Holds(r.value.0, met + {identity}) && (r.value.1 <==> identity.uuid !in table)
    ensures r.Ok? ==> r.value.0 == table[identity.uuid := identity] && (!r.value.1 ==> r.value.0 == table)
  {
    if identity.uuid in table {
      if table[identity.uuid] != identity {
        assert Conflict(table[identity.uuid], identity);
        return Err(ExportError);
      }
      assert met + {identity} == met;
      return Ok((table, false));
    }
    var left := table.Keys;
    while left != {}
      invariant left <= table.Keys
      invariant forall u | u in table && u !in left :: !Conflict(table[u], identity)
    {
      var u :| u in left;
      var other := table[u];
      if other.path == identity.path || other.id == identity.id {
        assert Conflict(other, identity);
        return Err(ExportError);
      }
      left := left - {u};
    }
    forall a | a in met ensures !Conflict(a, identity) && !Conflict(identity, a) {
      assert table[a.uuid] == a;
    }
    return Ok((table[identity.uuid := identity], true));
  }

  /** Merging a list of identities one after the other. */
  function MergeAll(met: seq<Identity>): Option<Table> {
    if met == [] then Some(map[])
    else
      var before, last := MergeAll(met[..|met| - 1]), met[|met| - 1];
      if before == None || exists u :: u in before.value && Conflict(before.value[u], last) then None
      else Some(before.value[last.uuid := last])
  }

  ghost function Met(list: seq<Identity>): set<Identity> {
    set a | a in list
  }

  /** Merging fails exactly on a conflicting pair, wherever its two halves are met. */
  lemma {:induction false} MergeAllIff(met: seq<Identity>)
    ensures MergeAll(met).Some? <==> Compatible(Met(met))
    ensures MergeAll(met).Some? ==> Holds(MergeAll(met).value, Met(met))
  {
    if met != [] {
      var front, last := met[..|met| - 1], met[|met| - 1];
      assert met == front + [last];
      MergeAllIff(front);
      assert Met(met) == Met(front) + {last};
      if MergeAll(front).Some? {
        var table := MergeAll(front).value;
        if u :| u in table && Conflict(table[u], last) {
          assert table[u] in Met(met);
        } else {
          forall a | a in Met(front) ensures !Conflict(a, last) && !Conflict(last, a) {
            assert table[a.uuid] == a;
          }
        }
      } else {
        assert Met(front) <= Met(met);
      }
    }
  }

  /** Neither the outcome nor the table depends on the order or the repetition of references. */
  lemma MergeForgetsOrder(a: seq<Identity>, b: seq<Identity>)
    requires forall x :: x in a <==> x in b
    ensures MergeAll(a) == MergeAll(b)
  {
    MergeAllIff(a);
    MergeAllIff(b);
    assert Met(a) == Met(b);
    if MergeAll(a).Some? {
      HoldsOneTable(MergeAll(a).value, MergeAll(b).value, Met(a));
    }
  }

  lemma SlashSplits(u: string, v: string, f: string, g: string)
    requires '/' !in u && '/' !in v && u + "/" + f == v + "/" + g
    ensures u == v
  {
    var s, t := u + "/" + f, v + "/" + g;
    assert s[|u|] == '/' && t[|v|] == '/';
    assert forall i | 0 <= i < |u| :: s[i] == u[i];
    assert forall i | 0 <= i < |v| :: t[i] == v[i];
    assert u == s[..|u|] == t[..|v|] == v;
  }

  /** Since a canonical uuid holds no slash, identities with two uuids never share a path: the check
      for a duplicate path never fires, and only ids can collide across uuids. */
  lemma PathsNeverCollide(x: Json, y: Json, naming: Naming)
    requires forall u | naming.isCanonical(u) :: '/' !in u
    requires Identify(x, naming).Ok? && Identify(y, naming).Ok?
    requires Identify(x, naming).value.path == Identify(y, naming).value.path
    ensures Identify(x, naming).value.uuid == Identify(y, naming).value.uuid
  {
    var a, b := Identify(x, naming).value, Identify(y, naming).value;
    assert a.path[|"assets/"|..] == b.path[|"assets/"|..];
    var f, g := a.path[|"assets/"| + |a.uuid| + 1..], b.path[|"assets/"| + |b.uuid| + 1..];
    assert a.path[|"assets/"|..] == a.uuid + "/" + f;
    assert b.path[|"assets/"|..] == b.uuid + "/" + g;
    SlashSplits(a.uuid, b.uuid, f, g);
  }
}
