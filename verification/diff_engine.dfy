/**
 * The generated `delta(old, new)`: each field contributes an entry by its
 * strategy and may raise the shared `delta_is_some` flag; the flag decides
 * between no delta and a delta holding every field's entry.
 */
module DiffEngine {
  import opened Wrappers
  import opened Unordered
  import opened Records

  /** One field's entry and whether it raises `delta_is_some`. */
  datatype FieldDiff<T> = FieldDiff(entry: Entry<T>, changed: bool)

  /** The entries of a run of fields and whether any of them raised the flag. */
  datatype FieldsDiff<T> = FieldsDiff(entries: seq<Entry<T>>, changed: bool)

  /**
   * One field: a `Scalar` field records the new value when it differs; an
   * `Unordered` field records the multiset difference; a `Delta` field records
   * the nested delta. The field raises the flag exactly when its entry is
   * not empty.
   */
  function FieldEntry<T(==)>(k: Kind, before: Value<T>, after: Value<T>): (r: FieldDiff<T>)
    requires ValueConforms(before, k) && ValueConforms(after, k)
    ensures r.changed <==> !r.entry.IsEmpty()
    ensures EntryFits(r.entry, k)
    decreases k, 0, 0
  {
    match k
    case ScalarKind =>
      if before.v != after.v then FieldDiff(ScalarEntry(Some(after.v)), true)
      else FieldDiff(ScalarEntry(None), false)
    case UnorderedKind =>
      var c := Diff(before.items, after.items);
      FieldDiff(UnorderedEntry(c), c.IsChange())
    case DeltaKind(inner) =>
      var d := Delta(inner, before.fields, after.fields);
      FieldDiff(DeltaEntry(d), d.Some?)
  }

  /** The fields from index `i` on, in schema order, OR-ing their flags. */
  function ComputeFrom<T(==)>(schema: seq<Kind>, before: seq<Value<T>>, after: seq<Value<T>>, i: nat)
    : (r: FieldsDiff<T>)
    requires Conforms(before, schema) && Conforms(after, schema) && i <= |schema|
    ensures |r.entries| == |schema| - i
    ensures forall j :: 0 <= j < |r.entries| ==>
      r.entries[j] == FieldEntry(schema[i + j], before[i + j], after[i + j]).entry
    ensures forall j :: 0 <= j < |r.entries| ==> EntryFits(r.entries[j], schema[i + j])
    ensures r.changed <==> exists j :: 0 <= j < |r.entries| && !r.entries[j].IsEmpty()
    decreases schema, 0, |schema| - i
  {
    if i == |schema| then FieldsDiff([], false)
    else
      var head := FieldEntry(schema[i], before[i], after[i]);
      var tail := ComputeFrom(schema, before, after, i + 1);
      var entries := [head.entry] + tail.entries;
      assert forall j :: 1 <= j < |entries| ==> entries[j] == tail.entries[j - 1];
      assert entries[0] == head.entry;
      assert (head.changed || tail.changed) <==> exists j :: 0 <= j < |entries| && !entries[j].IsEmpty() by {
        if tail.changed {
          var j :| 0 <= j < |tail.entries| && !tail.entries[j].IsEmpty();
          assert !entries[j + 1].IsEmpty();
        }
        if exists j :: 0 <= j < |entries| && !entries[j].IsEmpty() {
          var j :| 0 <= j < |entries| && !entries[j].IsEmpty();
          if j > 0 {
            assert !tail.entries[j - 1].IsEmpty();
          }
        }
      }
      FieldsDiff(entries, head.changed || tail.changed)
  }

  /**
   * The delta from `before` to `after`: absent when no field changed, else
   * one entry per field, shaped as the schema's delta type declares.
   */
  function Delta<T(==)>(schema: seq<Kind>, before: seq<Value<T>>, after: seq<Value<T>>)
    : (r: Option<seq<Entry<T>>>)
    requires Conforms(before, schema) && Conforms(after, schema)
    ensures r.None? <==> forall j :: 0 <= j < |schema| ==>
      FieldEntry(schema[j], before[j], after[j]).entry.IsEmpty()
    ensures r.Some? ==> DeltaFits(r.value, schema)
    ensures r.Some? ==> forall j :: 0 <= j < |schema| ==>
      r.value[j] == FieldEntry(schema[j], before[j], after[j]).entry
    decreases schema, 1, 0
  {
    var fs := ComputeFrom(schema, before, after, 0);
    assert !fs.changed ==> forall j :: 0 <= j < |schema| ==>
      FieldEntry(schema[j], before[j], after[j]).entry.IsEmpty() by {
      if !fs.changed {
        forall j | 0 <= j < |schema|
          ensures FieldEntry(schema[j], before[j], after[j]).entry.IsEmpty()
        {
          assert fs.entries[j] == FieldEntry(schema[0 + j], before[0 + j], after[0 + j]).entry;
        }
      }
    }
    if fs.changed then Some(fs.entries) else None
  }

  /** A field's entry is empty exactly when the two values agree under its strategy. */
  lemma {:induction false} EntryEmptyIffEquivalent<T>(k: Kind, before: Value<T>, after: Value<T>)
    requires ValueConforms(before, k) && ValueConforms(after, k)
    ensures FieldEntry(k, before, after).entry.IsEmpty() <==> FieldEquivalent(before, after)
    decreases k
  {
    match k
    case ScalarKind =>
    case UnorderedKind =>
      DiffIsChangeIff(before.items, after.items);
    case DeltaKind(inner) =>
      NoChangeIffEquivalent(inner, before.fields, after.fields);
  }

  /** `delta` is absent exactly when every field agrees under its strategy. */
  lemma {:induction false} NoChangeIffEquivalent<T>(schema: seq<Kind>, before: seq<Value<T>>, after: seq<Value<T>>)
    requires Conforms(before, schema) && Conforms(after, schema)
    ensures Delta(schema, before, after).None? <==> Equivalent(before, after)
    decreases schema
  {
    forall j | 0 <= j < |schema|
      ensures FieldEntry(schema[j], before[j], after[j]).entry.IsEmpty()
          <==> FieldEquivalent(before[j], after[j])
    {
      EntryEmptyIffEquivalent(schema[j], before[j], after[j]);
    }
  }

  /** No-op law: a record diffed against itself gives no delta. */
  lemma DeltaSelf<T>(schema: seq<Kind>, r: seq<Value<T>>)
    requires Conforms(r, schema)
    ensures Delta(schema, r, r).None?
  {
    EquivalentRefl(r);
    NoChangeIffEquivalent(schema, r, r);
  }

  /**
   * When a delta is produced, a field's entry is empty (`None`, or two empty
   * lists) exactly when that field did not change.
   */
  lemma UnchangedFieldsAreEmpty<T>(schema: seq<Kind>, before: seq<Value<T>>, after: seq<Value<T>>)
    requires Conforms(before, schema) && Conforms(after, schema)
    requires Delta(schema, before, after).Some?
    ensures forall j :: 0 <= j < |schema| ==>
      (Delta(schema, before, after).value[j].IsEmpty() <==> FieldEquivalent(before[j], after[j]))
  {
    forall j | 0 <= j < |schema|
      ensures FieldEntry(schema[j], before[j], after[j]).entry.IsEmpty()
          <==> FieldEquivalent(before[j], after[j])
    {
      EntryEmptyIffEquivalent(schema[j], before[j], after[j]);
    }
  }
}
