/**
 * The field classifier: every field of the record gets a diff strategy, its
 * own override when it declares one, otherwise the record-level default.
 * Attribute contents that cannot be read are errors, and the errors of all
 * fields are gathered into one list before the derive fails.
 */
module Classify {
  import opened Wrappers

  /**
   * The diff strategy of a field. The constructors `Unordered` and `Delta`
   * share their names with the module `Unordered` and the function
   * `DiffEngine.Delta`; modules using both import this one unopened and
   * qualify, as in `Classify.Delta`.
   */
  datatype FieldType = Ordered | Unordered | Scalar | Delta

  /** The attribute value that names each strategy. */
  function Token(ft: FieldType): string
  {
    match ft
    case Ordered => "ordered"
    case Unordered => "unordered"
    case Scalar => "scalar"
    case Delta => "delta"
  }

  /**
   * Reads a strategy name. Only the four exact names are recognised; any other
   * text is no strategy at all (and is not an error).
   */
  function StringToFieldType(s: string): (r: Option<FieldType>)
    ensures forall ft :: r == Some(ft) <==> s == Token(ft)
    ensures r.None? <==> forall ft :: s != Token(ft)
  {
    match s
    case "ordered" => Some(Ordered)
    case "unordered" => Some(Unordered)
    case "scalar" => Some(Scalar)
    case "delta" => Some(Delta)
    case _ => None
  }

  /** Attribute contents that are not `name = "string"` pairs. */
  datatype FieldTypeError = UnrecognizedJunkFound(junk: seq<string>)

  /**
   * What reading one field's (or the record's) attributes produced: either the
   * optional strategy it names, or an error.
   */
  type Parsed = Result<Option<FieldType>, FieldTypeError>

  /** A field as the classifier sees it: its name and its parsed attributes. */
  datatype FieldDecl = FieldDecl(name: string, parsed: Parsed)

  /** A field with its resolved strategy. */
  datatype ClassifiedField = ClassifiedField(name: string, fieldType: FieldType)

  /**
   * The record-level default: the strategy the record attribute names, or
   * `Scalar` when it names none; `None` when the attribute cannot be read
   * (the derive aborts).
   */
  function DefaultFieldType(record: Parsed): (r: Option<FieldType>)
    ensures record == Ok(None) ==> r == Some(Scalar)
    ensures forall ft :: record == Ok(Some(ft)) ==> r == Some(ft)
    ensures r.None? <==> record.Err?
  {
    match record
    case Ok(declared) => Some(declared.UnwrapOr(Scalar))
    case Err(_) => None
  }

  /** One step of the fold over the fields. */
  function Step(acc: Result<seq<ClassifiedField>, seq<string>>, f: FieldDecl, default: FieldType)
    : Result<seq<ClassifiedField>, seq<string>>
  {
    match (acc, f.parsed)
    case (Ok(v), Ok(c)) => Ok(v + [ClassifiedField(f.name, c.UnwrapOr(default))])
    case (Ok(_), Err(_)) => Err([f.name])
    case (Err(v), Err(_)) => Err(v + [f.name])
    case (Err(v), Ok(_)) => Err(v)
  }

  /** Left fold of `Step` over `fields`, starting from `acc`. */
  function FoldFields(acc: Result<seq<ClassifiedField>, seq<string>>, fields: seq<FieldDecl>, default: FieldType)
    : Result<seq<ClassifiedField>, seq<string>>
    decreases |fields|
  {
    if |fields| == 0 then acc
    else FoldFields(Step(acc, fields[0], default), fields[1..], default)
  }

  /** Classifies all fields, or reports every field whose attributes could not be read. */
  function CollectResults(fields: seq<FieldDecl>, default: FieldType)
    : Result<seq<ClassifiedField>, seq<string>>
  {
    FoldFields(Ok([]), fields, default)
  }

  /** Every field's attributes were read. */
  predicate AllParsed(fields: seq<FieldDecl>)
  {
    forall i :: 0 <= i < |fields| ==> fields[i].parsed.Ok?
  }

  /** The names of the fields whose attributes could not be read, in field order. */
  function FailingNames(fields: seq<FieldDecl>): seq<string>
  {
    if |fields| == 0 then []
    else (if fields[0].parsed.Err? then [fields[0].name] else []) + FailingNames(fields[1..])
  }

  /** Each field with its override, or `default` when it has none. */
  function Resolve(fields: seq<FieldDecl>, default: FieldType): (r: seq<ClassifiedField>)
    requires AllParsed(fields)
  {
    if |fields| == 0 then []
    else [ClassifiedField(fields[0].name, fields[0].parsed.value.UnwrapOr(default))]
         + Resolve(fields[1..], default)
  }

  lemma {:induction false} FailingNamesEmptyIff(fields: seq<FieldDecl>)
    ensures FailingNames(fields) == [] <==> AllParsed(fields)
    decreases |fields|
  {
    if |fields| > 0 {
      FailingNamesEmptyIff(fields[1..]);
      if AllParsed(fields[1..]) && fields[0].parsed.Ok? {
        assert forall i :: 1 <= i < |fields| ==> fields[i] == fields[1..][i - 1];
      }
    }
  }

  /** Once an error has been seen, the fold only appends further failing names. */
  lemma {:induction false} FoldFromErr(v: seq<string>, fields: seq<FieldDecl>, default: FieldType)
    ensures FoldFields(Err(v), fields, default) == Err(v + FailingNames(fields))
    decreases |fields|
  {
    if |fields| == 0 {
      assert v + [] == v;
    } else {
      var f, rest := fields[0], fields[1..];
      var mine := if f.parsed.Err? then [f.name] else [];
      assert v + [] == v;
      assert Step(Err(v), f, default) == Err(v + mine);
      FoldFromErr(v + mine, rest, default);
      assert FailingNames(fields) == mine + FailingNames(rest);
      assert (v + mine) + FailingNames(rest) == v + (mine + FailingNames(rest));
    }
  }

  /** Before any error, the fold appends resolved fields; the first error restarts the list. */
  lemma {:induction false} FoldFromOk(acc: seq<ClassifiedField>, fields: seq<FieldDecl>, default: FieldType)
    ensures AllParsed(fields) ==> FoldFields(Ok(acc), fields, default) == Ok(acc + Resolve(fields, default))
    ensures !AllParsed(fields) ==> FoldFields(Ok(acc), fields, default) == Err(FailingNames(fields))
    decreases |fields|
  {
    FailingNamesEmptyIff(fields);
    if |fields| == 0 {
      assert acc + [] == acc;
    } else {
      var f := fields[0];
      FailingNamesEmptyIff(fields[1..]);
      match f.parsed
      case Ok(c) =>
        var acc' := acc + [ClassifiedField(f.name, c.UnwrapOr(default))];
        assert Step(Ok(acc), f, default) == Ok(acc');
        FoldFromOk(acc', fields[1..], default);
        assert FailingNames(fields) == FailingNames(fields[1..]);
        if AllParsed(fields) {
          assert AllParsed(fields[1..]);
          assert acc' + Resolve(fields[1..], default) == acc + Resolve(fields, default);
        }
      case Err(_) =>
        assert Step(Ok(acc), f, default) == Err([f.name]);
        FoldFromErr([f.name], fields[1..], default);
    }
  }

  /**
   * The classifier's outcome: when every field was read, one entry per field in
   * field order, each the field's override or else the default; otherwise an
   * error naming exactly the failing fields, in field order.
   */
  lemma CollectResultsOutcome(fields: seq<FieldDecl>, default: FieldType)
    ensures AllParsed(fields) ==> CollectResults(fields, default) == Ok(Resolve(fields, default))
    ensures !AllParsed(fields) ==> CollectResults(fields, default) == Err(FailingNames(fields))
  {
    FoldFromOk([], fields, default);
    if AllParsed(fields) {
      assert [] + Resolve(fields, default) == Resolve(fields, default);
    }
  }

  /** `Resolve` keeps the fields in order and fills missing overrides with the default. */
  lemma {:induction false} ResolveEntries(fields: seq<FieldDecl>, default: FieldType)
    requires AllParsed(fields)
    ensures |Resolve(fields, default)| == |fields|
    ensures forall i :: 0 <= i < |fields| ==>
      Resolve(fields, default)[i]
        == ClassifiedField(fields[i].name, fields[i].parsed.value.UnwrapOr(default))
    decreases |fields|
  {
    if |fields| > 0 {
      assert AllParsed(fields[1..]);
      ResolveEntries(fields[1..], default);
    }
  }

  /**
   * An unrecognised strategy name is not an error: the field quietly takes the
   * default. Two such fields classify, rather than failing together.
   */
  lemma UnknownNamesTakeDefault(default: FieldType)
    ensures CollectResults([FieldDecl("a", Ok(StringToFieldType("foo"))),
                            FieldDecl("b", Ok(StringToFieldType("bar")))], default)
         == Ok([ClassifiedField("a", default), ClassifiedField("b", default)])
  {
    var fields := [FieldDecl("a", Ok(StringToFieldType("foo"))),
                   FieldDecl("b", Ok(StringToFieldType("bar")))];
    assert StringToFieldType("foo") == None by {
      assert "foo"[0] != "ordered"[0] && "foo"[0] != "unordered"[0];
      assert "foo"[0] != "scalar"[0] && "foo"[0] != "delta"[0];
    }
    assert StringToFieldType("bar") == None by {
      assert "bar"[0] != "ordered"[0] && "bar"[0] != "unordered"[0];
      assert "bar"[0] != "scalar"[0] && "bar"[0] != "delta"[0];
    }
    assert AllParsed(fields);
    CollectResultsOutcome(fields, default);
    ResolveEntries(fields, default);
    assert Resolve(fields, default) == [ClassifiedField("a", default), ClassifiedField("b", default)];
  }

  /** Two unreadable fields fail once, together, in field order. */
  lemma UnreadableFieldsFailTogether(default: FieldType, e1: FieldTypeError, e2: FieldTypeError)
    ensures CollectResults([FieldDecl("a", Err(e1)), FieldDecl("ok", Ok(None)), FieldDecl("b", Err(e2))], default)
         == Err(["a", "b"])
  {
    var fields := [FieldDecl("a", Err(e1)), FieldDecl("ok", Ok(None)), FieldDecl("b", Err(e2))];
    CollectResultsOutcome(fields, default);
    assert fields[1..][1..] == [fields[2]] && [fields[2]][1..] == [];
    assert FailingNames([fields[2]]) == ["b"];
    assert FailingNames(fields[1..]) == ["b"];
    assert FailingNames(fields) == ["a", "b"];
  }
}
