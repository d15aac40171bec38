/**
 * The generated `apply_delta(&mut self, delta)`: each field is updated from
 * its entry, in schema order. The in-place update is modelled as a function
 * from the old record to the new one.
 */
module PatchEngine {
  import opened Wrappers
  import opened Unordered
  import opened Records

  /**
   * One field: a `Scalar` or `Delta` field changes only when its entry is
   * `Some` (replaced, or patched recursively); an `Unordered` field loses its
   * matched removals and gains the additions at the end.
   */
  function ApplyField<T(==)>(k: Kind, target: Value<T>, e: Entry<T>): (r: Value<T>)
    requires ValueConforms(target, k) && EntryFits(e, k)
    ensures ValueConforms(r, k)
    ensures e.IsEmpty() ==> r == target
    decreases k, 0, 0
  {
    match k
    case ScalarKind =>
      (match e.replace
       case Some(v) => Atom(v)
       case None => target)
    case UnorderedKind =>
      PatchNothing(target.items);
      Bag(Patch(target.items, e.changes))
    case DeltaKind(inner) =>
      (match e.nested
       case Some(d) => Struct(ApplyDelta(inner, target.fields, d))
       case None => target)
  }

  /** The fields from index `i` on, each patched from its own entry. */
  function ApplyFrom<T(==)>(schema: seq<Kind>, target: seq<Value<T>>, d: seq<Entry<T>>, i: nat)
    : (r: seq<Value<T>>)
    requires Conforms(target, schema) && DeltaFits(d, schema) && i <= |schema|
    ensures |r| == |schema| - i
    ensures forall j :: 0 <= j < |r| ==> r[j] == ApplyField(schema[i + j], target[i + j], d[i + j])
    decreases schema, 0, |schema| - i
  {
    if i == |schema| then []
    else [ApplyField(schema[i], target[i], d[i])] + ApplyFrom(schema, target, d, i + 1)
  }

  /**
   * Patches `target` with `d`: the result is again a record of the schema,
   * each field patched from its own entry, and fields whose entry is empty
   * are left exactly as they were.
   */
  function ApplyDelta<T(==)>(schema: seq<Kind>, target: seq<Value<T>>, d: seq<Entry<T>>)
    : (r: seq<Value<T>>)
    requires Conforms(target, schema) && DeltaFits(d, schema)
    ensures Conforms(r, schema)
    ensures forall j :: 0 <= j < |schema| ==> r[j] == ApplyField(schema[j], target[j], d[j])
    ensures forall j :: 0 <= j < |schema| && d[j].IsEmpty() ==> r[j] == target[j]
    decreases schema, 1, 0
  {
    var r := ApplyFrom(schema, target, d, 0);
    assert forall j :: 0 <= j < |schema| ==> r[j] == ApplyField(schema[0 + j], target[0 + j], d[0 + j]);
    r
  }
}
