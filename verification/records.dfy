/**
 * Records, their schema, and the shape of the delta a schema induces.
 *
 * A record is a sequence of field values; its schema gives each field's
 * strategy. A `Delta` field holds a whole nested record with its own schema.
 * An `Ordered` field has no diff or patch behaviour, so a schema cannot hold one.
 *
 * `Classify` is imported without `opened`: its strategy names `Unordered` and
 * `Delta` coincide with the module `Unordered` and the function
 * `DiffEngine.Delta`, so strategies are always written `Classify.Scalar` etc.
 */
module Records {
  import opened Wrappers
  import Classify
  import opened Unordered

  /** The strategy of one field of a schema; a `Delta` field carries its record's schema. */
  datatype Kind = ScalarKind | UnorderedKind | DeltaKind(inner: seq<Kind>)

  /** The classifier strategy a schema field stands for. */
  function StrategyOf(k: Kind): (ft: Classify.FieldType)
    ensures ft != Classify.Ordered
  {
    match k
    case ScalarKind => Classify.Scalar
    case UnorderedKind => Classify.Unordered
    case DeltaKind(_) => Classify.Delta
  }

  /** A field value: a plain value, a collection, or a nested record. */
  datatype Value<T> = Atom(v: T) | Bag(items: seq<T>) | Struct(fields: seq<Value<T>>)

  /** `r` is a record of the schema `schema`. */
  predicate Conforms<T>(r: seq<Value<T>>, schema: seq<Kind>)
    decreases schema
  {
    |r| == |schema| && forall i :: 0 <= i < |r| ==> ValueConforms(r[i], schema[i])
  }

  /** `x` is a value of a field of strategy `k`. */
  predicate ValueConforms<T>(x: Value<T>, k: Kind)
    decreases k
  {
    match k
    case ScalarKind => x.Atom?
    case UnorderedKind => x.Bag?
    case DeltaKind(inner) => x.Struct? && Conforms(x.fields, inner)
  }

  /** The part of a delta that belongs to one field. */
  datatype Entry<T> =
    | ScalarEntry(replace: Option<T>)
    | UnorderedEntry(changes: Changes<T>)
    | DeltaEntry(nested: Option<seq<Entry<T>>>)
  {
    /** The entry records no change to its field. */
    predicate IsEmpty() {
      match this
      case ScalarEntry(r) => r.None?
      case UnorderedEntry(c) => !c.IsChange()
      case DeltaEntry(n) => n.None?
    }
  }

  /** The member(s) the delta type declares for one field. */
  datatype Slot =
    | OptionalValue        // `Option<T>`
    | AddRemoveLists       // `Vec<Item>` for additions and `Vec<Item>` for removals
    | OptionalNestedDelta  // `Option<<T as Delta>::Output>`

  /** The delta member a strategy produces; `None` for `Ordered`, which is not implemented. */
  function DeltaSlot(ft: Classify.FieldType): (r: Option<Slot>)
    ensures r.None? <==> ft == Classify.Ordered
  {
    match ft
    case Ordered => None
    case Unordered => Some(AddRemoveLists)
    case Scalar => Some(OptionalValue)
    case Delta => Some(OptionalNestedDelta)
  }

  /** The slot an entry fills. */
  function SlotOfEntry<T>(e: Entry<T>): Slot
  {
    match e
    case ScalarEntry(_) => OptionalValue
    case UnorderedEntry(_) => AddRemoveLists
    case DeltaEntry(_) => OptionalNestedDelta
  }

  /** `e` has the shape the delta type declares for a field of strategy `k`. */
  predicate EntryFits<T>(e: Entry<T>, k: Kind)
    decreases k
  {
    && DeltaSlot(StrategyOf(k)) == Some(SlotOfEntry(e))
    && (e.DeltaEntry? && e.nested.Some? ==> k.DeltaKind? && DeltaFits(e.nested.value, k.inner))
  }

  /** `d` is a value of the delta type of the schema `schema`. */
  predicate DeltaFits<T>(d: seq<Entry<T>>, schema: seq<Kind>)
    decreases schema
  {
    |d| == |schema| && forall i :: 0 <= i < |d| ==> EntryFits(d[i], schema[i])
  }

  /**
   * Two field values agree under their strategy: equal plain values, equal
   * collections up to order, and nested records that agree field by field.
   */
  predicate FieldEquivalent<T(==)>(x: Value<T>, y: Value<T>)
    decreases x
  {
    match x
    case Atom(a) => y.Atom? && a == y.v
    case Bag(xs) => y.Bag? && multiset(xs) == multiset(y.items)
    case Struct(fs) => y.Struct? && Equivalent(fs, y.fields)
  }

  /** Two records agree field by field, each under its own strategy. */
  predicate Equivalent<T(==)>(a: seq<Value<T>>, b: seq<Value<T>>)
    decreases a
  {
    |a| == |b| && forall i :: 0 <= i < |a| ==> FieldEquivalent(a[i], b[i])
  }

  lemma {:induction false} FieldEquivalentRefl<T>(x: Value<T>)
    ensures FieldEquivalent(x, x)
    decreases x
  {
    if x.Struct? {
      EquivalentRefl(x.fields);
    }
  }

  /** Every record agrees with itself. */
  lemma {:induction false} EquivalentRefl<T>(a: seq<Value<T>>)
    ensures Equivalent(a, a)
    decreases a
  {
    forall i | 0 <= i < |a|
      ensures FieldEquivalent(a[i], a[i])
    {
      FieldEquivalentRefl(a[i]);
    }
  }
}
