/**
 * Laws that relate the diff engine and the patch engine, and worked
 * scenarios: a changed scalar, an unordered field with duplicates, and an
 * unchanged nested record inside a produced delta.
 */
module Laws {
  import opened Wrappers
  import opened Unordered
  import opened Records
  import opened DiffEngine
  import opened PatchEngine

  /**
   * Patching one field with its own diff entry yields a value that agrees with
   * the new one under its strategy: equal for a scalar field, multiset-equal
   * for an unordered field, recursively agreeing for a nested field.
   */
  lemma {:induction false} FieldRoundTrip<T>(k: Kind, before: Value<T>, after: Value<T>)
    requires ValueConforms(before, k) && ValueConforms(after, k)
    ensures FieldEquivalent(ApplyField(k, before, FieldEntry(k, before, after).entry), after)
    decreases k
  {
    match k
    case ScalarKind =>
    case UnorderedKind =>
      PatchInvertsDiff(before.items, after.items);
    case DeltaKind(inner) =>
      if Delta(inner, before.fields, after.fields).Some? {
        RoundTrip(inner, before.fields, after.fields);
      } else {
        NoChangeIffEquivalent(inner, before.fields, after.fields);
      }
  }

  /**
   * Round-trip law: when `delta(old, new)` is present, applying it to `old`
   * gives a record that agrees with `new` field by field: equal on `Scalar`
   * fields, multiset-equal on `Unordered` fields, and recursively agreeing on
   * `Delta` fields (whose inner unordered fields may come back reordered);
   * when it is absent, `old` already agrees with `new` in that sense.
   */
  lemma {:induction false} RoundTrip<T>(schema: seq<Kind>, before: seq<Value<T>>, after: seq<Value<T>>)
    requires Conforms(before, schema) && Conforms(after, schema)
    ensures match Delta(schema, before, after)
            case None => Equivalent(before, after)
            case Some(d) => Equivalent(ApplyDelta(schema, before, d), after)
    decreases schema
  {
    match Delta(schema, before, after)
    case None =>
      NoChangeIffEquivalent(schema, before, after);
    case Some(d) =>
      var r := ApplyDelta(schema, before, d);
      forall j | 0 <= j < |schema|
        ensures FieldEquivalent(r[j], after[j])
      {
        FieldRoundTrip(schema[j], before[j], after[j]);
      }
  }

  /** A scalar field 3 -> 5 gives the delta `[ScalarEntry(Some(5))]`; 3 -> 3 gives none. */
  lemma ScalarScenario()
    ensures Delta([ScalarKind], [Atom(3)], [Atom(5)]) == Some([ScalarEntry(Some(5))])
    ensures Delta([ScalarKind], [Atom(3)], [Atom(3)]) == None
  {
    var schema, before, after := [ScalarKind], [Atom(3)], [Atom(5)];
    assert FieldEntry(schema[0], before[0], after[0]) == FieldDiff(ScalarEntry(Some(5)), true);
    var d := Delta(schema, before, after);
    assert d.Some? && |d.value| == 1;
    assert d.value == [ScalarEntry(Some(5))];
    DeltaSelf(schema, before);
  }

  /** `[a, b, b] -> [b, c]`: one `b` is matched, so `remove = [a, b]` and `add = [c]`. */
  lemma UnorderedScenario()
    ensures Diff(['a', 'b', 'b'], ['b', 'c']) == Changes(['c'], ['a', 'b'])
  {
    var xs, pool := ['a', 'b', 'b'], ['b', 'c'];
    assert xs[1..] == ['b', 'b'] && xs[1..][1..] == ['b'] && xs[1..][1..][1..] == [];
    assert FirstMatch.Position(pool, 'a') == None;
    assert FirstMatch.Position(pool, 'b') == Some(0);
    assert FirstMatch.RemoveAt(pool, 0) == ['c'];
    assert FirstMatch.Position(['c'], 'b') == None;
    assert FirstMatch.Consume(['b'], ['c']) == FirstMatch.Matched(['b'], ['c']);
    assert FirstMatch.Consume(['b', 'b'], pool) == FirstMatch.Matched(['b'], ['c']);
    assert FirstMatch.Consume(xs, pool) == FirstMatch.Matched(['a', 'b'], ['c']);
  }

  /**
   * A nested record that did not change contributes an absent entry even
   * though the outer delta exists because another field changed.
   */
  lemma NestedScenario()
    ensures Delta([ScalarKind, DeltaKind([ScalarKind])],
                  [Atom(1), Struct([Atom(7)])],
                  [Atom(2), Struct([Atom(7)])])
         == Some([ScalarEntry(Some(2)), DeltaEntry(None)])
  {
    var schema := [ScalarKind, DeltaKind([ScalarKind])];
    var before, after := [Atom(1), Struct([Atom(7)])], [Atom(2), Struct([Atom(7)])];
    DeltaSelf([ScalarKind], [Atom(7)]);
    assert FieldEntry(schema[1], before[1], after[1]).entry == DeltaEntry(None);
    assert FieldEntry(schema[0], before[0], after[0]).entry == ScalarEntry(Some(2));
    var d := Delta(schema, before, after);
    assert d.Some? && |d.value| == 2;
    assert d.value == [ScalarEntry(Some(2)), DeltaEntry(None)];
  }
}
