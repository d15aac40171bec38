# delta-struct: a Dafny model of the generated diff and patch

`delta-struct` is a derive macro. For a struct it generates a companion
`...Delta` type and two functions: `delta(old, new) -> Option<Delta>`, which
describes how `new` differs from `old`, and `apply_delta(&mut self, delta)`,
which replays such a description onto a value. Each field follows a strategy
chosen by a `delta_struct(field_type = ...)` attribute, or by the struct-level
`delta_struct(default = ...)`, which itself defaults to `scalar`:

- `scalar`: the delta holds `Option<T>`, `Some(new)` when the field differs;
- `unordered`: the delta holds an `_add` and a `_remove` list, the two multiset
  surpluses, found by a left-to-right scan in which each element consumes the
  first equal element still unmatched;
- `delta`: the delta holds the nested type's own `Option<Delta>`;
- `ordered`: accepted by the attribute reader but not implemented.

This project models what the generated code does, as pure functions over an
abstract record: a schema (`Records.Kind`, one strategy per field, a nested
schema for `delta` fields), a record (a sequence of `Records.Value`), and a
delta (a sequence of `Records.Entry`). Modules:

- `Wrappers`: `Option` and `Result`.
- `FirstMatch`: the consumption scan shared by the unordered diff (lines
  226-234) and the unordered patch (lines 295-302): `Consume(xs, pool)`
  returns the elements of `xs` that found no partner and what is left of
  the pool, with their counts (`ConsumeCounts`) and order (`IsSubsequence`).
- `Unordered`: `Diff` and `Patch` of one unordered field and their laws.
- `Classify`: `FieldType`, `string_to_fieldtype`, the default strategy and
  the error-collecting fold `collect_results`.
- `Records`: schema, records, delta entries, the delta shape per strategy
  (`delta_fields`), and agreement of two records under their strategies
  (`Equivalent`: equal scalars, multiset-equal collections, recursively
  agreeing nested records).
- `DiffEngine`: the generated `delta`.
- `PatchEngine`: the generated `apply_delta`, as a function from the old
  record to the patched one.
- `Laws`: the round trip between the two engines and worked scenarios.

The model follows the code on one point that is easy to misread: an
unrecognised strategy name such as `"foo"` is not a classification error.
`string_to_fieldtype` returns `None` for it, and the field silently takes the
record default (`Classify.UnknownNamesTakeDefault`). Only attribute contents
that cannot be read as `name = "string"` pairs make a field fail.

For the same reason that unordered fields are compared as multisets, `delta`
returns `None` when an unordered field was only reordered, although the two
records are then not `==` (`DiffEngine.NoChangeIffEquivalent` states exactly
when `None` is returned).

## Model

| member | source | states |
|---|---|---|
| `FirstMatch.Position` | delta-struct-macros/src/lib.rs:228 | the index found holds an equal element and no earlier one is equal; `None` exactly when no element is equal |
| `FirstMatch.RemoveAt` | delta-struct-macros/src/lib.rs:229 | removing one index loses exactly that one element's occurrence and shifts the rest down by one |
| `FirstMatch.Consume` | delta-struct-macros/src/lib.rs:227-234 | the kept elements are a subsequence of the scanned sequence, the pool's remainder a subsequence of the pool, and kept plus consumed pool entries account for every scanned element |
| `FirstMatch.ConsumeCounts` | delta-struct-macros/src/lib.rs:227-234 | kept elements are, as a multiset, the scanned sequence minus the pool; the pool's remainder is the pool minus the scanned sequence |
| `FirstMatch.KeptDependsOnRelevantCounts` | delta-struct-macros/src/lib.rs:295-302 | which elements are kept depends only on how many copies of each scanned element the pool holds, not on pool order or unrelated entries |
| `Unordered.Diff` | delta-struct-macros/src/lib.rs:226-234 | `remove` is multiset(old) minus multiset(new) in the order of old; `add` is multiset(new) minus multiset(old) in the order of new |
| `Unordered.Patch` | delta-struct-macros/src/lib.rs:294-304 | the result is a subsequence of the target followed by exactly `add`, and as a multiset it is target minus `remove` plus `add` |
| `Unordered.DiffIsChangeIff` | delta-struct-macros/src/lib.rs:226-235 | the field raises the change flag exactly when old and new differ as multisets |
| `Unordered.DiffSelf` | delta-struct-macros/src/lib.rs:226-235 | diffing a collection against itself gives two empty lists |
| `Unordered.DiffSwap` | delta-struct-macros/src/lib.rs:226-234 | diffing in the opposite direction exchanges the multisets of `add` and `remove` |
| `Unordered.PatchInvertsDiff` | delta-struct-macros/src/lib.rs:294-304 | patching old with the diff from old to new gives a collection multiset-equal to new |
| `Unordered.PatchLength` | delta-struct-macros/src/lib.rs:295-303 | the result's length is the target's length minus the removals that found a partner plus the additions; unmatched removals are multiset(remove) minus multiset(target) |
| `Unordered.PatchIgnoresIrrelevantRemovals` | delta-struct-macros/src/lib.rs:295-302 | two `remove` lists with equal counts for every element of the target patch identically |
| `Unordered.PatchIgnoresUnmatchedRemoval` | delta-struct-macros/src/lib.rs:296-301 | a removal equal to no element of the target changes nothing |
| `Unordered.PatchNothing` | delta-struct-macros/src/lib.rs:294-304 | patching with empty `add` and `remove` returns the target unchanged, order included |
| `Classify.StringToFieldType` | delta-struct-macros/src/lib.rs:418-426 | a text names a strategy exactly when it is one of the four strategy names, and then names that strategy; any other text gives `None` |
| `Classify.DefaultFieldType` | delta-struct-macros/src/lib.rs:33-42 | the record default is the declared strategy, `Scalar` when none is declared, and missing (the derive aborts) exactly when the attribute could not be read |
| `Classify.FoldFromErr` | delta-struct-macros/src/lib.rs:345-349 | once the fold holds an error list, it only appends the names of further failing fields |
| `Classify.FoldFromOk` | delta-struct-macros/src/lib.rs:339-349 | before any error the fold appends resolved fields; at the first error the list restarts with the failing names only |
| `Classify.CollectResultsOutcome` | delta-struct-macros/src/lib.rs:335-351 | all fields read gives `Ok` of every field resolved in order; otherwise `Err` of exactly the failing field names in order |
| `Classify.ResolveEntries` | delta-struct-macros/src/lib.rs:340-341 | the resolved list has one entry per field, in order, with the field's override or else the default |
| `Classify.UnknownNamesTakeDefault` | delta-struct-macros/src/lib.rs:339-343 | fields naming `"foo"` and `"bar"` classify successfully with the default strategy |
| `Classify.UnreadableFieldsFailTogether` | delta-struct-macros/src/lib.rs:344-348 | two unreadable fields around a good one produce a single error naming both, in order |
| `Records.DeltaSlot` | delta-struct-macros/src/lib.rs:179-203 | every strategy but `Ordered` has a delta member; `Ordered` has none |
| `DiffEngine.FieldEntry` | delta-struct-macros/src/lib.rs:218-265 | a field raises the change flag exactly when its entry is non-empty, and the entry has the member shape its strategy declares |
| `DiffEngine.ComputeFrom` | delta-struct-macros/src/lib.rs:211-268 | one entry per field in schema order, each fitting its field, and the accumulated flag is raised exactly when some entry is non-empty |
| `DiffEngine.Delta` | delta-struct-macros/src/lib.rs:140-150 | no delta exactly when every field's entry is empty; otherwise a value of the delta type holding every field's entry |
| `DiffEngine.EntryEmptyIffEquivalent` | delta-struct-macros/src/lib.rs:243-265 | a field's entry is empty exactly when old and new agree under the field's strategy (equal, multiset-equal, or recursively agreeing) |
| `DiffEngine.NoChangeIffEquivalent` | delta-struct-macros/src/lib.rs:141-149 | `delta` is `None` exactly when every field agrees under its strategy |
| `DiffEngine.DeltaSelf` | delta-struct-macros/src/lib.rs:140-150 | a record diffed against itself gives `None` |
| `DiffEngine.UnchangedFieldsAreEmpty` | delta-struct-macros/src/lib.rs:143-146 | in a produced delta, a field's entry is `None` or two empty lists exactly when that field did not change |
| `PatchEngine.ApplyField` | delta-struct-macros/src/lib.rs:282-330 | the patched field is again a value of its strategy, and an empty entry leaves it exactly as it was |
| `PatchEngine.ApplyFrom` | delta-struct-macros/src/lib.rs:275-332 | one patched value per field in schema order, each patched from its own entry |
| `PatchEngine.ApplyDelta` | delta-struct-macros/src/lib.rs:152-157 | the patched record is again a record of the schema, and fields with an empty entry are untouched |
| `Laws.FieldRoundTrip` | delta-struct-macros/src/lib.rs:282-330 | patching a field with its own diff entry yields a value agreeing with the new one: equal for a scalar field, multiset-equal for an unordered field, and recursively agreeing for a nested field (so multiset-equal, not equal, on its inner unordered fields) |
| `Laws.RoundTrip` | delta-struct-macros/src/lib.rs:140-157 | applying `delta(old, new)` to old agrees with new field by field (equal on scalar fields, multiset-equal on unordered fields, recursively agreeing on nested fields); when there is no delta, old already agrees with new in that sense |
| `Laws.ScalarScenario` | delta-struct-macros/src/lib.rs:245-250 | a scalar 3 to 5 gives the delta `Some(5)`, and 3 to 3 gives no delta |
| `Laws.UnorderedScenario` | delta-struct-macros/src/lib.rs:226-234 | `[a, b, b]` to `[b, c]` gives `remove = [a, b]` and `add = [c]` |
| `Laws.NestedScenario` | delta-struct-macros/src/lib.rs:258-259 | an unchanged nested record contributes `None` inside a delta produced because another field changed |

## Left out

- Attribute reading (`get_fieldtype_from_attrs`, lines 357-416) uses `syn` meta parsing; each field's outcome is the abstract `Classify.Parsed` (an optional strategy or an error). Its `abort_call_site!` for an unknown attribute key and the `delta_leader` text are not modelled.
- Diagnostics (`abort_call_site!` messages, `VALID_FIELD_TYPES`) are compile-time error text; an abort is modelled as a missing result.
- The `Ordered` strategy panics with `unimplemented!()` in all three generators (lines 180, 219, 283). `Records.DeltaSlot` returns `None` for it, and `Records.Kind` cannot express an ordered field, so diff and patch never meet one.
- Code emission is not modelled: the delta struct declaration, field naming (`field_N`, `_add`, `_remove`), visibility, the `PartialEq` where-clause (lines 106-134) and derives for non-struct types (which abort, lines 76-80). A record's fields are positional; a unit struct is a record with no fields.
- Every plain value and every collection element shares one element type `T` with decidable equality, where the generated code allows a different type per field.
- Equality on field and item types is Dafny's `==`, a full equivalence, while the generated code only requires `PartialEq` (lines 106-134) and compares with `!=`/`==` (lines 228, 245, 296). For a type whose `==` is not reflexive (a floating-point NaN), `delta(r.clone(), r)` returns `Some` and the unordered round trip keeps the old copy and appends the new one. `DiffEngine.DeltaSelf`, `DiffEngine.NoChangeIffEquivalent`, `Unordered.DiffSelf` and `Laws.RoundTrip` therefore hold only for types whose equality behaves like `Eq`.
- A `delta` field's type is assumed to use this derived implementation, so its value is a nested record with its own schema (`Records.DeltaKind`). The generated code calls whatever `Delta` implementation the type has (lines 200, 258, 327), and a hand-written one need not satisfy the no-op or round-trip laws. The nested cases of `Laws.RoundTrip`, `DiffEngine.DeltaSelf` and `DiffEngine.NoChangeIffEquivalent` rest on this assumption.
- The round trip gives equality only on scalar fields. On a nested field it gives field-by-field agreement, so an inner unordered field comes back multiset-equal and possibly reordered: `[a]` patched towards `[b, a]` becomes `[a, b]`.
- Unordered fields are modelled as `Vec`: `FromIterator` keeps order and `extend` appends. Collection types whose `FromIterator` or `extend` reorder or deduplicate (sets, maps) are not modelled.
- `apply_delta` mutates in place; the model returns the patched record instead.
