/** The recursive walk over two object snapshots and their rendered and digest projections. */
module DiffWalk {
  import opened Wrappers
  import opened Ordering

  /** A JSON value; `Redacted` is the unforgeable redaction marker. */
  datatype Value =
    | Null
    | Boolean(flag: bool)
    | Integer(whole: int)
    | Number(fraction: real)
    | Text(text: string)
    | Sequence(items: seq<Value>)
    | Mapping(fields: map<string, Value>)
    | Redacted

  /** `value if isinstance(value, Mapping) else {}`. */
  function Fields(value: Option<Value>): map<string, Value> {
    if value.Some? && value.value.Mapping? then value.value.fields else map[]
  }

  /** `mapping.get(key, _ABSENT)`. */
  function Get(value: Option<Value>, key: string): Option<Value> {
    if key in Fields(value) then Some(Fields(value)[key]) else None
  }

  /** What is found at one position of the two snapshots and of their projections. */
  datatype View = View(before: Option<Value>, after: Option<Value>,
                       renderedBefore: Option<Value>, renderedAfter: Option<Value>,
                       digestBefore: Option<Value>, digestAfter: Option<Value>)
  {
    function At(key: string): View {
      View(Get(before, key), Get(after, key), Get(renderedBefore, key), Get(renderedAfter, key),
           Get(digestBefore, key), Get(digestAfter, key))
    }

    function AtPath(keys: seq<string>): View
      decreases |keys|
    {
      if keys == [] then this else At(keys[0]).AtPath(keys[1..])
    }

    function Keys(): set<string> {
      Fields(before).Keys + Fields(after).Keys
    }

    predicate Unchanged() {
      before.Some? && after.Some? && before == after
    }
  }

  /** `_can_recurse`. */
  predicate CanRecurse(v: View) {
    var beforeMapping := v.before.Some? && v.before.value.Mapping?;
    var afterMapping := v.after.Some? && v.after.value.Mapping?;
    var renderedBeforeMapping := v.renderedBefore.Some? && v.renderedBefore.value.Mapping?;
    var renderedAfterMapping := v.renderedAfter.Some? && v.renderedAfter.value.Mapping?;
    if beforeMapping && afterMapping then renderedBeforeMapping && renderedAfterMapping
    else if beforeMapping && v.after.None? && Fields(v.before) != map[] then renderedBeforeMapping
    else if v.before.None? && afterMapping && Fields(v.after) != map[] then renderedAfterMapping
    else false
  }

  /** A reported position: the keys that lead to it and what is found there. */
  datatype Change = Change(keys: seq<string>, view: View)

  function Known(value: Option<Value>): Value {
    if value.Some? then value.value else Null
  }

  /** The changes below `v`, which sits at `at`, in the order of the keys. */
  function Walk(v: View, at: seq<string>): seq<Change>
    decreases v.before.Some?, Known(v.before), v.after.Some?, Known(v.after), 1, 0
  {
    WalkKeys(v, SortedSet(v.Keys()), at)
  }

  function WalkKeys(v: View, keys: seq<string>, at: seq<string>): seq<Change>
    requires forall k | k in keys :: k in v.Keys()
    decreases v.before.Some?, Known(v.before), v.after.Some?, Known(v.after), 0, |keys|
  {
    if keys == [] then []
    else WalkKey(v, keys[0], at) + WalkKeys(v, keys[1..], at)
  }

  function WalkKey(v: View, key: string, at: seq<string>): seq<Change>
    requires key in v.Keys()
    decreases v.before.Some?, Known(v.before), v.after.Some?, Known(v.after), 0, 0
  {
    var c := v.At(key);
    if c.Unchanged() then []
    else if CanRecurse(c) then Walk(c, at + [key])
    else [Change(at + [key], c)]
  }

  // Positions instead of lists: which positions below a view the walk looks at and reports.

  /** The walk looks at position `keys` below `v`. */
  ghost predicate Visited(v: View, keys: seq<string>)
    decreases |keys|
  {
    keys == []
    || (&& keys[0] in v.Keys()
        && (|keys| == 1 || (Entered(v.At(keys[0])) && Visited(v.At(keys[0]), keys[1..]))))
  }

  ghost predicate Entered(v: View) {
    !v.Unchanged() && CanRecurse(v)
  }

  ghost predicate Reported(v: View) {
    !v.Unchanged() && !CanRecurse(v)
  }

  /** The walk reports position `keys` below `v`. */
  ghost predicate Reports(v: View, keys: seq<string>) {
    keys != [] && Visited(v, keys) && Reported(v.AtPath(keys))
  }

  ghost predicate ReportedBelow(v: View, at: seq<string>, e: Change) {
    && at <= e.keys
    && Reports(v, e.keys[|at|..])
    && e.view == v.AtPath(e.keys[|at|..])
  }

  lemma ReportsStep(v: View, keys: seq<string>)
    requires keys != []
    ensures Reports(v, keys) <==>
            && keys[0] in v.Keys()
            && !v.At(keys[0]).Unchanged()
            && if CanRecurse(v.At(keys[0])) then Reports(v.At(keys[0]), keys[1..]) else |keys| == 1
  {
    assert v.AtPath(keys) == v.At(keys[0]).AtPath(keys[1..]);
  }

  /** The list the walk returns holds exactly the reported positions. */
  lemma {:induction false} WalkReports(v: View, at: seq<string>, e: Change)
    ensures e in Walk(v, at) <==> ReportedBelow(v, at, e)
    decreases v.before.Some?, Known(v.before), v.after.Some?, Known(v.after), 1, 0
  {
    hide Reports;
    WalkKeysReport(v, SortedSet(v.Keys()), at, e);
    if ReportedBelow(v, at, e) {
      ReportedBelowHead(v, at, e);
    }
  }

  lemma ReportedBelowHead(v: View, at: seq<string>, e: Change)
    requires ReportedBelow(v, at, e)
    ensures |e.keys| > |at| && e.keys[|at|] in v.Keys()
  {
    ReportsStep(v, e.keys[|at|..]);
  }

  lemma {:induction false} WalkKeysReport(v: View, keys: seq<string>, at: seq<string>, e: Change)
    requires forall k | k in keys :: k in v.Keys()
    ensures e in WalkKeys(v, keys, at) <==> ReportedBelow(v, at, e) && |e.keys| > |at| && e.keys[|at|] in keys
    decreases v.before.Some?, Known(v.before), v.after.Some?, Known(v.after), 0, |keys|
  {
    hide ReportedBelow;
    if keys != [] {
      WalkKeyReport(v, keys[0], at, e);
      WalkKeysReport(v, keys[1..], at, e);
    }
  }

  lemma {:induction false} WalkKeyReport(v: View, key: string, at: seq<string>, e: Change)
    requires key in v.Keys()
    ensures e in WalkKey(v, key, at) <==> ReportedBelow(v, at, e) && |e.keys| > |at| && e.keys[|at|] == key
    decreases v.before.Some?, Known(v.before), v.after.Some?, Known(v.after), 0, 0
  {
    hide Reports, CanRecurse;
    var c := v.At(key);
    if |e.keys| > |at| && at <= e.keys && e.keys[|at|] == key {
      var rel := e.keys[|at|..];
      ReportsStep(v, rel);
      assert rel[1..] == e.keys[|at| + 1..];
      assert at + [key] <= e.keys;
      assert v.AtPath(rel) == c.AtPath(rel[1..]);
      if |rel| == 1 {
        assert e.keys == at + [key];
      }
    }
    if Entered(c) {
      WalkReports(c, at + [key], e);
      if ReportedBelow(c, at + [key], e) {
        assert e.keys[|at|] == key;
      }
    }
  }
}
