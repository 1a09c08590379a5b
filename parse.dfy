/**
 * `parse`: a host value (str, int, float, bool, None, list or dict) turned
 * into a node tree with a schema at every node.
 */
module Parse {
  import opened Wrappers
  import opened Text
  import opened Values
  import opened OrderedMap
  import opened Schemas
  import opened Nodes
  import opened Meta

  /** No value anywhere in the tree is of a type `parse` refuses. */
  predicate Supported(v: Value)
    decreases v, 1
  {
    match v
    case Unsupported(_) => false
    case List(items) => SupportedItems(items)
    case Dict(es) => SupportedEntries(es)
    case _ => true
  }

  predicate SupportedItems(items: seq<Value>)
    decreases items, 0
  {
    forall k :: 0 <= k < |items| ==> Supported(items[k])
  }

  predicate SupportedEntries(es: seq<(string, Value)>)
    decreases es, 0
  {
    forall k :: 0 <= k < |es| ==> assert es[k].1 < es[k]; Supported(es[k].1)
  }

  /**
   * The type name of the first refused value met in the order `parse`
   * visits the tree (items and entries left to right, depth first).
   */
  function FirstUnsupported(v: Value): (r: Option<string>)
    decreases v, 1
    ensures r.None? <==> Supported(v)
  {
    match v
    case Unsupported(t) => Some(t)
    case List(items) => FirstUnsupportedItems(items)
    case Dict(es) => FirstUnsupportedEntries(es)
    case _ => None
  }

  function FirstUnsupportedItems(items: seq<Value>): (r: Option<string>)
    decreases items, 0
    ensures r.None? <==> SupportedItems(items)
  {
    if |items| == 0 then None
    else
      match FirstUnsupported(items[0])
      case Some(t) => Some(t)
      case None =>
        var r := FirstUnsupportedItems(items[1..]);
        assert SupportedItems(items) <==> Supported(items[0]) && SupportedItems(items[1..]) by {
          assert forall k :: 0 < k < |items| ==> items[k] == items[1..][k - 1];
        }
        r
  }

  function FirstUnsupportedEntries(es: seq<(string, Value)>): (r: Option<string>)
    decreases es, 0
    ensures r.None? <==> SupportedEntries(es)
  {
    if |es| == 0 then None
    else
      assert es[0].1 < es[0];
      match FirstUnsupported(es[0].1)
      case Some(t) => Some(t)
      case None =>
        var r := FirstUnsupportedEntries(es[1..]);
        assert SupportedEntries(es) <==> Supported(es[0].1) && SupportedEntries(es[1..]) by {
          assert forall k :: 0 < k < |es| ==> es[k] == es[1..][k - 1];
        }
        r
  }

  /** When every item before `k` is supported, the first refusal is inside item `k`. */
  lemma {:induction false} FirstUnsupportedItemsAt(items: seq<Value>, k: nat)
    requires k < |items| && !Supported(items[k])
    requires forall j :: 0 <= j < k ==> Supported(items[j])
    ensures FirstUnsupportedItems(items) == FirstUnsupported(items[k])
  {
    if k > 0 {
      FirstUnsupportedItemsAt(items[1..], k - 1);
    }
  }

  lemma {:induction false} FirstUnsupportedEntriesAt(es: seq<(string, Value)>, k: nat)
    requires k < |es| && !Supported(es[k].1)
    requires forall j :: 0 <= j < k ==> Supported(es[j].1)
    ensures FirstUnsupportedEntries(es) == FirstUnsupported(es[k].1)
  {
    if k > 0 {
      FirstUnsupportedEntriesAt(es[1..], k - 1);
    }
  }

  /** The `EncodingError` text for a refused structure: `type(value)` shown as `<class 'T'>`. */
  function UnsupportedMessage(typeName: string): string
  {
    "Unsupported structure type: <class '" + typeName + "'>"
  }

  /**
   * The primitive type `parse_primitive` names: str is "string", bool is
   * "bool" (tested before int, which it is a subclass of), int and float
   * are "number", None is "null".
   */
  function PrimitiveTypeName(v: Value): (t: string)
    requires IsPrimitive(v)
  {
    match v
    case Str(_) => "string"
    case Bool(_) => "bool"
    case Int(_) => "number"
    case Float(_) => "number"
    case Null => "null"
  }

  /** Kind and type name of the schema `parse` gives a supported value. */
  function ExpectedShape(v: Value): (s: Shape)
    ensures v.List? <==> s.kind == SchemaKind.List
    ensures v.Dict? <==> s.kind == Record
    ensures IsPrimitive(v) <==> s.kind == Primitive
  {
    match v
    case List(items) => MkShape(SchemaKind.List, if |items| == 0 then "any" else "list")
    case Dict(_) => MkShape(Record, "any")
    case Unsupported(_) => MkShape(Any, "")
    case _ => MkShape(Primitive, PrimitiveTypeName(v))
  }

  /** A field schema paired with the name it had when it was met. */
  type Labelled = (string, Schema)

  /**
   * The fields of the record items among `items`, item by item, in order,
   * each with its current name: what the `seen_fields` loop of
   * `parse_list` walks over.
   */
  function RecordFields(items: seq<Node>): (fs: seq<Labelled>)
    reads *
  {
    if |items| == 0 then []
    else
      RecordFields(items[..|items| - 1]) + ItemFields(items[|items| - 1])
  }

  /** The fields of one item when it is a record, with their names. */
  function ItemFields(item: Node): (fs: seq<Labelled>)
    reads item, item.schema, if item.schema == null then {} else set f | f in item.schema.fieldsList
  {
    if item.schema != null && item.schema.kind == Record then WithNames(item.schema.fieldsList) else []
  }

  /** Each schema of `fs` paired with its name. */
  function WithNames(fs: seq<Schema>): (ps: seq<Labelled>)
    reads set f | f in fs
    ensures |ps| == |fs| && forall i :: 0 <= i < |fs| ==> ps[i] == (fs[i].name, fs[i])
  {
    if |fs| == 0 then [] else WithNames(fs[..|fs| - 1]) + [(fs[|fs| - 1].name, fs[|fs| - 1])]
  }

  /** The names that occur in `ps`. */
  function NameSet<T(==)>(ps: seq<(string, T)>): set<string>
  {
    set p | p in ps :: p.0
  }

  /** Keeps the first entry of each name, in order (the `seen_fields` filter). */
  function FirstByName<T(==)>(ps: seq<(string, T)>): (d: seq<(string, T)>)
  {
    if |ps| == 0 then []
    else
      var p := FirstByName(ps[..|ps| - 1]);
      if ps[|ps| - 1].0 in NameSet(p) then p else p + [ps[|ps| - 1]]
  }

  /** Position of the first entry of `ps` named `x`. */
  function FirstNamed<T(==)>(ps: seq<(string, T)>, x: string): (i: nat)
    requires x in NameSet(ps)
    ensures i < |ps| && ps[i].0 == x && forall j :: 0 <= j < i ==> ps[j].0 != x
  {
    if ps[0].0 == x then 0
    else
      assert x in NameSet(ps[1..]) by {
        var p :| p in ps && p.0 == x;
        assert p in ps[1..];
      }
      1 + FirstNamed(ps[1..], x)
  }

  lemma NameSetSnoc<T>(ps: seq<(string, T)>, e: (string, T))
    ensures NameSet(ps + [e]) == NameSet(ps) + {e.0}
  {
    assert forall p :: p in ps + [e] <==> p in ps || p == e;
  }

  /** `FirstByName` keeps every name that occurs. */
  lemma {:induction false} FirstByNameNames<T>(ps: seq<(string, T)>)
    ensures NameSet(FirstByName(ps)) == NameSet(ps)
    decreases |ps|
  {
    if |ps| > 0 {
      var t := ps[..|ps| - 1];
      FirstByNameNames(t);
      assert ps == t + [ps[|ps| - 1]];
      assert NameSet(ps) == NameSet(t) + {ps[|ps| - 1].0};
    }
  }

  /** `FirstByName` keeps one entry per name. */
  lemma {:induction false} FirstByNameDistinct<T>(ps: seq<(string, T)>)
    ensures forall a, b :: 0 <= a < b < |FirstByName(ps)| ==> FirstByName(ps)[a].0 != FirstByName(ps)[b].0
    decreases |ps|
  {
    if |ps| > 0 {
      var t := ps[..|ps| - 1];
      FirstByNameDistinct(t);
      var p := FirstByName(t);
      forall a | 0 <= a < |p| ensures p[a].0 in NameSet(p) {
        assert p[a] in p;
      }
    }
  }

  /** The entry `FirstByName` keeps for a name is the first entry of that name. */
  lemma {:induction false} FirstByNameFirst<T>(ps: seq<(string, T)>)
    ensures forall a :: 0 <= a < |FirstByName(ps)| ==>
      FirstByName(ps)[a].0 in NameSet(ps) && FirstByName(ps)[a] == ps[FirstNamed(ps, FirstByName(ps)[a].0)]
    decreases |ps|
  {
    if |ps| > 0 {
      var t := ps[..|ps| - 1];
      var x := ps[|ps| - 1];
      var p := FirstByName(t);
      FirstByNameFirst(t);
      FirstByNameNames(t);
      assert ps == t + [x];
      forall a | 0 <= a < |p| ensures p[a].0 in NameSet(t) && FirstNamed(ps, p[a].0) == FirstNamed(t, p[a].0) {
        assert p[a] in p;
        FirstNamedPrefix(t, x, p[a].0);
      }
      if x.0 !in NameSet(p) {
        FirstNamedLast(t, x);
      }
    }
  }

  /**
   * Entries are only ever appended: what `FirstByName` keeps of a prefix
   * is a prefix of what it keeps of the whole, so the kept entries come in
   * the order their names first appear.
   */
  lemma {:induction false} FirstByNamePrefix<T>(ps: seq<(string, T)>, i: nat)
    requires i <= |ps|
    ensures FirstByName(ps[..i]) <= FirstByName(ps)
    decreases |ps| - i
  {
    if i < |ps| {
      FirstByNamePrefix(ps, i + 1);
      var q := ps[..i + 1];
      assert q[..i] == ps[..i];
      assert FirstByName(ps[..i]) <= FirstByName(q);
    } else {
      assert ps[..i] == ps;
    }
  }

  /** A name not met before the last entry is first met there. */
  lemma FirstNamedLast<T>(t: seq<(string, T)>, x: (string, T))
    requires x.0 !in NameSet(t)
    ensures x.0 in NameSet(t + [x]) && FirstNamed(t + [x], x.0) == |t|
  {
    assert (t + [x])[|t|] == x;
    forall j | 0 <= j < |t| ensures (t + [x])[j].0 != x.0 {
      assert (t + [x])[j] in t;
    }
  }

  /** The first entry named `x` is still first after something is appended. */
  lemma FirstNamedPrefix<T>(t: seq<(string, T)>, e: (string, T), x: string)
    requires x in NameSet(t)
    ensures x in NameSet(t + [e]) && FirstNamed(t + [e], x) == FirstNamed(t, x)
  {
    var i := FirstNamed(t, x);
    assert (t + [e])[i] == t[i];
  }

  lemma AppendPrefix<T>(a: seq<T>, s: seq<T>, m: nat)
    requires m < |s|
    ensures a + s[..m + 1] == (a + s[..m]) + [s[m]]
  {
    assert s[..m + 1] == s[..m] + [s[m]];
  }

  /** `FirstByName` of a sequence with one more entry. */
  lemma FirstByNameSnoc<T>(ps: seq<(string, T)>, e: (string, T))
    ensures FirstByName(ps + [e]) == if e.0 in NameSet(FirstByName(ps)) then FirstByName(ps) else FirstByName(ps) + [e]
  {
    assert (ps + [e])[..|ps|] == ps;
  }

  /**
   * `parse_primitive`: str, bool, int/float and None get a fresh primitive
   * schema named "string", "bool", "number" or "null" and keep their value
   * unchanged; anything else raises with the message
   * `Unsupported primitive: ` followed by the value's text.
   */
  method ParsePrimitive(v: Value) returns (r: Result<Node, string>)
    ensures r.Ok? <==> IsPrimitive(v)
    ensures r.Err? ==> "Unsupported primitive: " <= r.error
    ensures r.Ok? ==>
      && fresh(r.value) && r.value.schema != null && fresh(r.value.schema)
      && r.value.schema.Shape() == MkShape(Primitive, PrimitiveTypeName(v))
      && r.value.value == v && r.value.name == ""
      && r.value.elements == [] && r.value.fields == []
      && r.value.schema.element == null && r.value.schema.fieldsList == []
      && r.value.schema.MetaContent() == EmptyMeta && r.value.MetaContent() == EmptyMeta
      && r.value.Dict(1) == Some(v)
  {
    if !IsPrimitive(v) {
      return Err("Unsupported primitive: ");
    }
    var schema := new Schema(Primitive, PrimitiveTypeName(v), "", null);
    var node := new Node(schema, "", v, [], []);
    return Ok(node);
  }

  /**
   * What `parse` promises of the node it builds for `v`: a schema of the
   * expected kind and type name, the scalar kept as the value, one element
   * per list item, and one field per dict entry named after its key (or
   * its position).
   */
  predicate ParsedAs(v: Value, n: Node)
    reads n, n.schema, if n.schema == null then {} else set f | f in n.schema.fieldsList
  {
    && n.schema != null
    && n.schema.Shape() == ExpectedShape(v)
    && (IsPrimitive(v) ==> n.value == v)
    && (v.List? ==> |n.elements| == |v.items|)
    && (v.Dict? ==>
          && |n.schema.fieldsList| == |v.entries|
          && forall m :: 0 <= m < |v.entries| ==> n.schema.fieldsList[m].name == FieldName(v.entries[m].0, m))
  }

  /**
   * Schemas as `parse` leaves them: the element and every field of one of
   * them is one of them, and none carries metadata.
   */
  ghost predicate Created(M: set<Schema>)
    reads M`element, M`fieldsList, M`comments, M`attr, M`tags, M`required
  {
    && (forall s {:trigger s.element} :: s in M ==> s.element == null || s.element in M)
    && (forall s, k {:trigger s.fieldsList[k]} :: s in M && 0 <= k < |s.fieldsList| ==> s.fieldsList[k] in M)
    && (forall s :: s in M ==> s.comments == [] && s.attr == [] && s.tags == [] && !s.required)
  }

  /** One more schema whose element and fields are already there, and which carries no metadata. */
  lemma CreatedWith(M: set<Schema>, s: Schema)
    requires Created(M) && (s.element == null || s.element in M || s.element == s)
    requires (forall k :: 0 <= k < |s.fieldsList| ==> s.fieldsList[k] in M) && s.MetaContent() == EmptyMeta
    ensures Created(M + {s})
  {
  }

  /**
   * `parse`: scalars go to `parse_primitive`, lists to `parse_list`, dicts
   * to `parse_dict`; any other type raises `EncodingError`, and so does a
   * refused value anywhere inside, the first one met.
   */
  method Parse(v: Value) returns (r: Result<Node, string>, ghost made: set<Schema>)
    decreases v, 2
    ensures r.Ok? <==> Supported(v)
    ensures r.Err? ==> r.error == UnsupportedMessage(FirstUnsupported(v).value)
    ensures r.Ok? ==> fresh(r.value) && r.value.schema != null && fresh(r.value.schema) && ParsedAs(v, r.value)
    ensures r.Ok? ==> r.value.MetaContent() == EmptyMeta
    ensures r.Ok? && v.Dict? && Distinct(Keys(v.entries)) ==> DictChildren(v.entries, r.value)
    ensures fresh(made) && Created(made) && (r.Ok? ==> r.value.schema in made)
  {
    made := {};
    match v {
      case Unsupported(t) =>
        r := Err(UnsupportedMessage(t));
      case List(items) =>
        r, made := ParseList(items);
      case Dict(es) =>
        r, made := ParseDict(es);
      case _ =>
        r := ParsePrimitive(v);
        if r.Ok? {
          made := {r.value.schema};
        }
    }
  }

  /**
   * `parse_list`.  An empty list gets a list schema of type "any" whose
   * element is a fresh primitive "any".  Otherwise every item is parsed,
   * in order, and the list schema (type "list") takes as element either
   * the first item's own schema or, when the first item is a dict, a fresh
   * "record" schema holding the union of the dict items' fields.
   */
  method ParseList(arr: seq<Value>) returns (r: Result<Node, string>, ghost made: set<Schema>)
    decreases arr, 1
    ensures r.Ok? <==> SupportedItems(arr)
    ensures r.Err? ==> r.error == UnsupportedMessage(FirstUnsupportedItems(arr).value)
    ensures r.Ok? ==>
      && fresh(r.value) && r.value.schema != null && fresh(r.value.schema)
      && ParsedAs(Value.List(arr), r.value)
      && r.value.value == Null && r.value.name == "" && r.value.fields == []
      && r.value.MetaContent() == EmptyMeta
      && r.value.schema.element != null
      && forall j {:trigger ParsedAs(arr[j], r.value.elements[j])} :: 0 <= j < |arr| ==> ParsedAs(arr[j], r.value.elements[j])
    ensures r.Ok? && |arr| == 0 ==>
      && fresh(r.value.schema.element)
      && r.value.schema.element.Shape() == MkShape(Primitive, "any")
      && r.value.schema.element.fieldsList == []
    ensures r.Ok? && |arr| > 0 && !arr[0].Dict? ==> r.value.schema.element == r.value.elements[0].schema
    ensures r.Ok? && |arr| > 0 && arr[0].Dict? ==>
      var el := r.value.schema.element;
      && fresh(el) && el.Shape() == MkShape(Record, "record") && el.element == null
      && el.fieldsList == FieldSchemas(FirstByName(RecordFields(r.value.elements)))
    ensures fresh(made) && Created(made) && (r.Ok? ==> r.value.schema in made)
  {
    if |arr| == 0 {
      var elementSchema := new Schema(Primitive, "any", "", null);
      var listSchema := new Schema(SchemaKind.List, "", "", elementSchema);
      var node := new Node(listSchema, "", Null, [], []);
      return Ok(node), {listSchema, elementSchema};
    }
    var parsed;
    parsed, made := ParseItems(arr);
    if parsed.Err? {
      return Err(parsed.error), {};
    }
    var node := ListOfItems(arr, parsed.value, made);
    made := made + {node.schema, node.schema.element};
    return Ok(node), made;
  }

  /**
   * The non-empty case of `parse_list` once its items are parsed: the
   * element schema is chosen and the list node built over the items.
   */
  method ListOfItems(arr: seq<Value>, items: seq<Node>, ghost M: set<Schema>) returns (node: Node)
    requires |arr| > 0 && |items| == |arr|
    requires Created(M) && forall j :: 0 <= j < |items| ==> items[j].schema in M
    requires forall j {:trigger ParsedAs(arr[j], items[j])} :: 0 <= j < |arr| ==> ParsedAs(arr[j], items[j])
    ensures fresh(node) && node.schema != null && fresh(node.schema)
    ensures ParsedAs(Value.List(arr), node)
    ensures node.value == Null && node.name == "" && node.fields == [] && node.elements == items
    ensures node.MetaContent() == EmptyMeta
    ensures node.schema.element != null
    ensures !arr[0].Dict? ==> node.schema.element == items[0].schema
    ensures arr[0].Dict? ==>
      var el := node.schema.element;
      && fresh(el) && el.Shape() == MkShape(Record, "record") && el.element == null
      && el.fieldsList == FieldSchemas(FirstByName(RecordFields(items)))
    ensures Created(M + {node.schema, node.schema.element})
  {
    var element := ListElement(arr, items, M);
    var listSchema := new Schema(SchemaKind.List, "list", "", element);
    node := new Node(listSchema, "", Null, [], items);
    assert node.MetaContent() == EmptyMeta;
    if element !in M {
      CreatedWith(M, element);
    }
    CreatedWith(M + {element}, listSchema);
    assert M + {element} + {listSchema} == M + {node.schema, node.schema.element};
  }

  /**
   * The element schema `parse_list` gives a non-empty list: the first
   * item's own schema, or the union of the dict items' fields when the
   * first item is a dict.
   */
  method ListElement(arr: seq<Value>, items: seq<Node>, ghost M: set<Schema>) returns (element: Schema)
    requires |arr| > 0 && |items| == |arr|
    requires Created(M) && forall j :: 0 <= j < |items| ==> items[j].schema in M
    requires forall j {:trigger ParsedAs(arr[j], items[j])} :: 0 <= j < |arr| ==> ParsedAs(arr[j], items[j])
    ensures !arr[0].Dict? ==> element == items[0].schema && element in M
    ensures arr[0].Dict? ==>
      && fresh(element) && element.Shape() == MkShape(Record, "record") && element.element == null
      && element.fieldsList == FieldSchemas(FirstByName(RecordFields(items)))
      && element.MetaContent() == EmptyMeta && forall k :: 0 <= k < |element.fieldsList| ==> element.fieldsList[k] in M
  {
    forall j | 0 <= j < |items|
      ensures items[j].schema != null && (items[j].schema.kind == Record ==> FieldsNamed(items[j].schema))
    {
      assert ParsedAs(arr[j], items[j]);
    }
    assert ParsedAs(arr[0], items[0]);
    element := items[0].schema;
    if element.kind == Record {
      forall j, x | 0 <= j < |items| && x in items[j].schema.fieldsList ensures x in M {
        assert items[j].schema in M;
      }
      element := UnionOfRecords(items, M);
    }
  }

  /** `[parse(v) for v in arr]`: the items in order, or the first refusal. */
  method ParseItems(arr: seq<Value>) returns (r: Result<seq<Node>, string>, ghost made: set<Schema>)
    decreases arr, 0
    ensures r.Ok? <==> SupportedItems(arr)
    ensures r.Err? ==> r.error == UnsupportedMessage(FirstUnsupportedItems(arr).value)
    ensures r.Ok? ==> |r.value| == |arr|
    ensures r.Ok? ==> forall j :: 0 <= j < |arr| ==>
      fresh(r.value[j]) && r.value[j].schema != null && fresh(r.value[j].schema)
    ensures r.Ok? ==> forall j {:trigger ParsedAs(arr[j], r.value[j])} :: 0 <= j < |arr| ==> ParsedAs(arr[j], r.value[j])
    ensures fresh(made) && Created(made) && (r.Ok? ==> forall j :: 0 <= j < |arr| ==> r.value[j].schema in made)
  {
    var items: seq<Node> := [];
    made := {};
    var k := 0;
    while k < |arr|
      invariant 0 <= k <= |arr| && |items| == k
      invariant forall j :: 0 <= j < k ==> Supported(arr[j])
      invariant forall j :: 0 <= j < k ==>
        fresh(items[j]) && items[j].schema != null && fresh(items[j].schema)
      invariant forall j {:trigger ParsedAs(arr[j], items[j])} :: 0 <= j < k ==> ParsedAs(arr[j], items[j])
      invariant fresh(made) && Created(made) && forall j :: 0 <= j < k ==> items[j].schema in made
    {
      var res;
      ghost var more;
      res, more := Parse(arr[k]);
      if res.Err? {
        FirstUnsupportedItemsAt(arr, k);
        return Err(res.error), made;
      }
      items := items + [res.value];
      made := made + more;
      k := k + 1;
    }
    return Ok(items), made;
  }

  /** The schemas of `ps`, without their labels. */
  function FieldSchemas(ps: seq<Labelled>): (fs: seq<Schema>)
    ensures |fs| == |ps|
  {
    if |ps| == 0 then [] else FieldSchemas(ps[..|ps| - 1]) + [ps[|ps| - 1].1]
  }

  lemma FieldSchemasSnoc(ps: seq<Labelled>, e: Labelled)
    ensures FieldSchemas(ps + [e]) == FieldSchemas(ps) + [e.1]
  {
    assert (ps + [e])[..|ps|] == ps;
  }

  /** Every field of `s` has a name. */
  predicate FieldsNamed(s: Schema)
    reads s, s.fieldsList
  {
    forall m :: 0 <= m < |s.fieldsList| ==> s.fieldsList[m].name != ""
  }

  /**
   * The record branch of `parse_list`: a fresh "record" schema to which
   * every field of every record item is added unless a field of that
   * name was added before.  Every such field is named already, so
   * `add_field` writes nothing but the new schema.
   */
  method UnionOfRecords(items: seq<Node>, ghost M: set<Schema>) returns (unified: Schema)
    requires forall j :: 0 <= j < |items| ==> items[j].schema != null
    requires forall j, x :: 0 <= j < |items| && x in items[j].schema.fieldsList ==> x in M
    requires forall j {:trigger FieldsNamed(items[j].schema)} :: 0 <= j < |items| && items[j].schema.kind == Record ==>
      FieldsNamed(items[j].schema)
    ensures fresh(unified) && unified.Shape() == MkShape(Record, "record") && unified.element == null
    ensures unified.fieldsList == FieldSchemas(FirstByName(old(RecordFields(items))))
    ensures unified.MetaContent() == EmptyMeta && forall x :: x in unified.fieldsList ==> x in M
  {
    unified := new Schema(Record, "record", "", null);
    ghost var cur: seq<Labelled> := [];
    var seen: set<string> := {};
    var j := 0;
    while j < |items|
      invariant 0 <= j <= |items|
      invariant cur == old(RecordFields(items[..j]))
      invariant fresh(unified) && unified.Shape() == MkShape(Record, "record") && unified.element == null
      invariant unified.fieldsList == FieldSchemas(FirstByName(cur)) && seen == NameSet(FirstByName(cur))
      invariant unified.MetaContent() == EmptyMeta && forall x :: x in unified.fieldsList ==> x in M
    {
      assert items[..j + 1][..j] == items[..j];
      assert ItemFields(items[j]) == old(ItemFields(items[j]));
      seen, cur := AddItemFields(unified, items[j], seen, cur, M);
      j := j + 1;
    }
    assert items[..j] == items;
  }

  /** One pass of the outer loop of the record branch of `parse_list`: a record item's unseen fields are added. */
  method AddItemFields(unified: Schema, item: Node, seen: set<string>, ghost cur: seq<Labelled>, ghost M: set<Schema>)
    returns (seen': set<string>, ghost cur': seq<Labelled>)
    requires unified.kind == Record && item.schema != null && unified !in item.schema.fieldsList
    requires forall x :: x in item.schema.fieldsList ==> x in M
    requires forall x :: x in unified.fieldsList ==> x in M
    requires item.schema.kind == Record ==> FieldsNamed(item.schema)
    requires unified.fieldsList == FieldSchemas(FirstByName(cur)) && seen == NameSet(FirstByName(cur))
    modifies unified
    ensures cur' == cur + old(ItemFields(item))
    ensures unified.fieldsList == FieldSchemas(FirstByName(cur')) && seen' == NameSet(FirstByName(cur'))
    ensures unified.Shape() == old(unified.Shape()) && unified.element == old(unified.element)
    ensures unified.MetaContent() == old(unified.MetaContent()) && forall x :: x in unified.fieldsList ==> x in M
  {
    var schema := item.schema;
    if schema.kind == Record {
      seen', cur' := AddUnseen(unified, schema.fieldsList, seen, cur, M);
    } else {
      seen', cur' := seen, cur;
    }
  }

  /**
   * The inner loop of the record branch of `parse_list`: each field of
   * one record item whose name is not in `seen` is added to `unified`.
   */
  method AddUnseen(unified: Schema, fs: seq<Schema>, seen: set<string>, ghost cur: seq<Labelled>, ghost M: set<Schema>)
    returns (seen': set<string>, ghost cur': seq<Labelled>)
    requires unified.kind == Record && unified !in fs && forall m :: 0 <= m < |fs| ==> fs[m].name != ""
    requires forall m :: 0 <= m < |fs| ==> fs[m] in M
    requires forall x :: x in unified.fieldsList ==> x in M
    requires unified.fieldsList == FieldSchemas(FirstByName(cur)) && seen == NameSet(FirstByName(cur))
    modifies unified
    ensures cur' == cur + WithNames(fs)
    ensures unified.fieldsList == FieldSchemas(FirstByName(cur')) && seen' == NameSet(FirstByName(cur'))
    ensures unified.Shape() == old(unified.Shape()) && unified.element == old(unified.element)
    ensures unified.MetaContent() == old(unified.MetaContent()) && forall x :: x in unified.fieldsList ==> x in M
  {
    ghost var labelled := WithNames(fs);
    seen', cur' := seen, cur;
    var m := 0;
    while m < |fs|
      invariant 0 <= m <= |fs|
      invariant cur' == cur + labelled[..m]
      invariant unified.kind == Record && unified.typeName == old(unified.typeName) && unified.element == old(unified.element)
      invariant unified.fieldsList == FieldSchemas(FirstByName(cur')) && seen' == NameSet(FirstByName(cur'))
      invariant unified.MetaContent() == old(unified.MetaContent()) && forall x :: x in unified.fieldsList ==> x in M
    {
      AppendPrefix(cur, labelled, m);
      seen' := AddIfUnseen(unified, fs[m], seen', cur', M);
      cur' := cur' + [labelled[m]];
      m := m + 1;
    }
    assert labelled[..m] == labelled;
  }

  /** One step of that loop: `field` is added to `unified` unless a field of its name is there. */
  method AddIfUnseen(unified: Schema, field: Schema, seen: set<string>, ghost cur: seq<Labelled>, ghost M: set<Schema>)
    returns (seen': set<string>)
    requires unified.kind == Record && unified != field && field.name != "" && field in M
    requires forall x :: x in unified.fieldsList ==> x in M
    requires unified.fieldsList == FieldSchemas(FirstByName(cur)) && seen == NameSet(FirstByName(cur))
    modifies unified
    ensures unified.fieldsList == FieldSchemas(FirstByName(cur + [(field.name, field)]))
    ensures seen' == NameSet(FirstByName(cur + [(field.name, field)]))
    ensures unified.kind == Record && unified.typeName == old(unified.typeName) && unified.element == old(unified.element)
    ensures unified.MetaContent() == old(unified.MetaContent()) && forall x :: x in unified.fieldsList ==> x in M
  {
    ghost var e := (field.name, field);
    FirstByNameSnoc(cur, e);
    seen' := seen;
    if field.name !in seen {
      ghost var u := FirstByName(cur);
      NameSetSnoc(u, e);
      unified.AddField(field);
      FieldSchemasSnoc(u, e);
      seen' := seen + {field.name};
    }
  }

  /**
   * `parse_dict`: a fresh record schema; for each entry in order the value
   * is parsed, its schema is renamed to the key and added as a field, and
   * the child is stored under the key.  The model parses every value
   * first and then names and adds the fields: no parse reads a schema an
   * earlier entry renamed, so nothing can tell the two orders apart.
   */
  method ParseDict(es: seq<(string, Value)>) returns (r: Result<Node, string>, ghost made: set<Schema>)
    decreases es, 1
    ensures r.Ok? <==> SupportedEntries(es)
    ensures r.Err? ==> r.error == UnsupportedMessage(FirstUnsupportedEntries(es).value)
    ensures r.Ok? ==>
      && fresh(r.value) && r.value.schema != null && fresh(r.value.schema)
      && ParsedAs(Value.Dict(es), r.value)
      && r.value.value == Null && r.value.name == "" && r.value.elements == []
      && r.value.MetaContent() == EmptyMeta
      && (forall k :: 0 <= k < |es| ==> r.value.schema.fieldsList[k].Shape() == ExpectedShape(es[k].1))
      && (Distinct(Keys(es)) ==> DictChildren(es, r.value))
    ensures fresh(made) && Created(made) && (r.Ok? ==> r.value.schema in made)
  {
    ghost var pos;
    var parsed;
    parsed, pos, made := ParseEntryValues(es);
    if parsed.Err? {
      return Err(parsed.error), {};
    }
    var node := RecordOfChildren(es, parsed.value, pos, made);
    made := made + {node.schema};
    return Ok(node), made;
  }

  /**
   * The rest of `parse_dict` once the values are parsed: a fresh record
   * schema to which the children's schemas are added under their keys, and
   * the record node over the children.
   */
  method RecordOfChildren(es: seq<(string, Value)>, children: seq<Node>, ghost pos: map<Schema, nat>, ghost M: set<Schema>)
    returns (node: Node)
    requires |children| == |es|
    requires Created(M) && forall j :: 0 <= j < |children| ==> children[j].schema in M
    requires forall j {:trigger ParsedAs(es[j].1, children[j])} :: 0 <= j < |es| ==> ParsedAs(es[j].1, children[j])
    requires AtPositions(children, pos) && Leaves(es, children)
    modifies (set j | 0 <= j < |children| :: children[j].schema)`name
    ensures fresh(node) && node.schema != null && fresh(node.schema)
    ensures Created(M + {node.schema})
    ensures Distinct(Keys(es)) ==> DictChildren(es, node)
    ensures ParsedAs(Value.Dict(es), node)
    ensures node.value == Null && node.name == "" && node.elements == [] && node.MetaContent() == EmptyMeta
    ensures forall k :: 0 <= k < |es| ==>
      node.schema.fieldsList[k] == children[k].schema && node.schema.fieldsList[k].Shape() == ExpectedShape(es[k].1)
  {
    forall j | 0 <= j < |es| ensures children[j].schema != null && children[j].schema.Shape() == ExpectedShape(es[j].1) {
      assert ParsedAs(es[j].1, children[j]);
    }
    var schema := NamedRecord(es, children, pos, M);
    node := RecordNode(es, children, schema, M + {schema});
  }

  lemma DictChildrenOf(es: seq<(string, Value)>, n: Node, children: seq<Node>)
    requires n.schema != null && |n.schema.fieldsList| == |es| && StoredUnder(n.fields, Keys(es), children)
    requires forall k :: 0 <= k < |es| ==>
      n.schema.fieldsList[k] == children[k].schema && n.schema.fieldsList[k].Shape() == ExpectedShape(es[k].1)
    requires Leaves(es, children)
    ensures DictChildren(es, n)
  {
    assert ValuesOf(n.fields) == children;
  }

  /** The record node of `parse_dict`: `fields_data` filled from the keys and children, under `schema`. */
  method RecordNode(es: seq<(string, Value)>, children: seq<Node>, schema: Schema, ghost M: set<Schema>) returns (node: Node)
    requires |children| == |es| && Leaves(es, children) && Created(M)
    requires schema.Shape() == MkShape(Record, "any") && |schema.fieldsList| == |es|
    requires forall k :: 0 <= k < |es| ==>
      && schema.fieldsList[k] == children[k].schema
      && schema.fieldsList[k].Shape() == ExpectedShape(es[k].1)
      && schema.fieldsList[k].name == FieldName(es[k].0, k)
    ensures fresh(node) && node.schema == schema && Created(M)
    ensures forall k :: 0 <= k < |es| ==>
      node.schema.fieldsList[k] == children[k].schema && node.schema.fieldsList[k].Shape() == ExpectedShape(es[k].1)
    ensures ParsedAs(Value.Dict(es), node)
    ensures node.value == Null && node.name == "" && node.elements == [] && node.MetaContent() == EmptyMeta
    ensures node.fields == PutAll(Keys(es), children)
    ensures Distinct(Keys(es)) ==> StoredUnder(node.fields, Keys(es), children) && DictChildren(es, node)
  {
    var fieldsData := StoreChildren(Keys(es), children);
    node := new Node(schema, "", Null, fieldsData, []);
    DictNode(es, children, node);
  }

  /** What a record node built from the keys and children says about the dict it came from. */
  lemma DictNode(es: seq<(string, Value)>, children: seq<Node>, node: Node)
    requires |children| == |es| && Leaves(es, children)
    requires node.schema != null && node.schema.Shape() == MkShape(Record, "any") && |node.schema.fieldsList| == |es|
    requires forall k :: 0 <= k < |es| ==>
      && node.schema.fieldsList[k] == children[k].schema
      && node.schema.fieldsList[k].Shape() == ExpectedShape(es[k].1)
      && node.schema.fieldsList[k].name == FieldName(es[k].0, k)
    requires node.fields == PutAll(Keys(es), children)
    ensures ParsedAs(Value.Dict(es), node)
    ensures Distinct(Keys(es)) ==> StoredUnder(node.fields, Keys(es), children) && DictChildren(es, node)
  {
    if Distinct(Keys(es)) {
      PutAllDistinct(Keys(es), children);
      DictChildrenOf(es, node, children);
    }
  }

  /** The record schema of `parse_dict`: the children's schemas as fields, named by their keys. */
  method NamedRecord(es: seq<(string, Value)>, children: seq<Node>, ghost pos: map<Schema, nat>, ghost M: set<Schema>) returns (schema: Schema)
    requires |children| == |es|
    requires forall j :: 0 <= j < |es| ==> children[j].schema != null && children[j].schema.Shape() == ExpectedShape(es[j].1)
    requires AtPositions(children, pos)
    requires Created(M) && forall j :: 0 <= j < |children| ==> children[j].schema in M
    modifies (set j | 0 <= j < |children| :: children[j].schema)`name
    ensures fresh(schema) && schema.Shape() == MkShape(Record, "any") && schema.element == null
    ensures Created(M + {schema})
    ensures schema.MetaContent() == EmptyMeta
    ensures |schema.fieldsList| == |es|
    ensures forall k :: 0 <= k < |es| ==>
      && schema.fieldsList[k] == children[k].schema
      && schema.fieldsList[k].Shape() == ExpectedShape(es[k].1)
      && schema.fieldsList[k].name == FieldName(es[k].0, k)
  {
    schema := new Schema(Record, "", "", null);
    NameFields(schema, Keys(es), children, pos);
    assert Created(M);
    CreatedWith(M, schema);
  }

  /** The values of `es` parsed in order, or the first refusal. */
  method ParseEntryValues(es: seq<(string, Value)>) returns (r: Result<seq<Node>, string>, ghost pos: map<Schema, nat>, ghost made: set<Schema>)
    decreases es, 0
    ensures r.Ok? <==> SupportedEntries(es)
    ensures r.Err? ==> r.error == UnsupportedMessage(FirstUnsupportedEntries(es).value)
    ensures r.Ok? ==> |r.value| == |es|
    ensures r.Ok? ==> forall j :: 0 <= j < |es| ==> r.value[j].schema != null && fresh(r.value[j].schema)
    ensures r.Ok? ==> forall j {:trigger ParsedAs(es[j].1, r.value[j])} :: 0 <= j < |es| ==> ParsedAs(es[j].1, r.value[j])
    ensures r.Ok? ==> Leaves(es, r.value)
    ensures r.Ok? ==> AtPositions(r.value, pos)
    ensures fresh(made) && Created(made) && (r.Ok? ==> forall j :: 0 <= j < |es| ==> r.value[j].schema in made)
  {
    var children: seq<Node> := [];
    pos := map[];
    made := {};
    var k := 0;
    while k < |es|
      invariant 0 <= k <= |es| && |children| == k
      invariant forall j :: 0 <= j < k ==> Supported(es[j].1)
      invariant forall j {:trigger ParsedAs(es[j].1, children[j])} :: 0 <= j < k ==> ParsedAs(es[j].1, children[j])
      invariant forall j :: 0 <= j < k ==> children[j].MetaContent() == EmptyMeta
      invariant AtPositions(children, pos)
      invariant fresh(made) && Created(made) && forall j :: 0 <= j < k ==> children[j].schema in made
    {
      assert es[k].1 < es[k];
      var res;
      ghost var more;
      res, more := Parse(es[k].1);
      if res.Err? {
        FirstUnsupportedEntriesAt(es, k);
        return Err(res.error), pos, made;
      }
      pos := pos[res.value.schema := k];
      children := children + [res.value];
      made := made + more;
      k := k + 1;
    }
    forall j | 0 <= j < |es| ensures IsPrimitive(es[j].1) ==> children[j].value == es[j].1 {
      assert ParsedAs(es[j].1, children[j]);
    }
    return Ok(children), pos, made;
  }

  /**
   * Each child's schema is recorded at the child's position, so no two
   * children share a schema object.
   */
  ghost predicate AtPositions(children: seq<Node>, pos: map<Schema, nat>)
    reads children
  {
    forall j :: 0 <= j < |children| ==> children[j].schema in pos && pos[children[j].schema] == j
  }

  /** Each child carries no metadata, and a scalar entry's child holds the scalar. */
  predicate Leaves(es: seq<(string, Value)>, children: seq<Node>)
    reads children
  {
    |children| == |es| &&
    forall j :: 0 <= j < |es| ==>
      children[j].MetaContent() == EmptyMeta && (IsPrimitive(es[j].1) ==> children[j].value == es[j].1)
  }

  /**
   * The children of a record parsed from a dict with distinct keys: the
   * entry for each key, in order, holding a node whose schema is the
   * record's field at that position.
   */
  predicate DictChildren(es: seq<(string, Value)>, n: Node)
    reads n, n.schema, set j | 0 <= j < |n.fields| :: n.fields[j].1
    reads if n.schema == null then {} else set f | f in n.schema.fieldsList
  {
    && n.schema != null && |n.fields| == |n.schema.fieldsList| == |es|
    && (forall k :: 0 <= k < |es| ==>
          && n.fields[k].0 == es[k].0 && n.fields[k].1.schema == n.schema.fieldsList[k]
          && n.schema.fieldsList[k].Shape() == ExpectedShape(es[k].1))
    && Leaves(es, ValuesOf(n.fields))
  }

  /** `fields` holds, in order, each child under the key at its position. */
  predicate StoredUnder(fields: OMap<string, Node>, keys: seq<string>, children: seq<Node>)
  {
    |fields| == |keys| == |children| && forall j :: 0 <= j < |keys| ==> fields[j] == (keys[j], children[j])
  }

  /**
   * The naming half of the `parse_dict` loop: each child's schema takes
   * its key as name and is added to `schema` as a field (so an empty key
   * becomes the field's position).
   */
  method NameFields(schema: Schema, keys: seq<string>, children: seq<Node>, ghost pos: map<Schema, nat>)
    requires schema.kind == Record && schema.fieldsList == [] && |keys| == |children|
    requires forall j :: 0 <= j < |children| ==> children[j].schema != null && children[j].schema != schema
    requires AtPositions(children, pos)
    modifies schema, (set j | 0 <= j < |children| :: children[j].schema)`name
    ensures schema.Shape() == old(schema.Shape()) && schema.name == old(schema.name) && schema.element == old(schema.element)
    ensures schema.MetaContent() == old(schema.MetaContent())
    ensures |schema.fieldsList| == |keys|
    ensures forall j :: 0 <= j < |keys| ==>
      schema.fieldsList[j] == children[j].schema && children[j].schema.name == FieldName(keys[j], j)
  {
    var k := 0;
    while k < |keys|
      invariant 0 <= k <= |keys|
      invariant schema.Shape() == old(schema.Shape()) && schema.name == old(schema.name) && schema.element == old(schema.element)
      invariant schema.MetaContent() == old(schema.MetaContent())
      invariant |schema.fieldsList| == k
      invariant forall j :: 0 <= j < k ==>
        schema.fieldsList[j] == children[j].schema && children[j].schema.name == FieldName(keys[j], j)
    {
      var child := children[k];
      label Naming:
      AddNamedField(schema, child.schema, keys[k]);
      forall j | 0 <= j < k ensures children[j].schema.name == old@Naming(children[j].schema.name) {
        assert pos[children[j].schema] != pos[child.schema];
      }
      k := k + 1;
    }
  }

  /** The storing half of the `parse_dict` loop: `fields_data[key] = child` for each entry in order. */
  method StoreChildren(keys: seq<string>, children: seq<Node>) returns (fieldsData: OMap<string, Node>)
    requires |keys| == |children|
    ensures fieldsData == PutAll(keys, children)
  {
    fieldsData := [];
    var k := 0;
    while k < |keys|
      invariant 0 <= k <= |keys|
      invariant fieldsData == PutAll(keys[..k], children[..k])
    {
      assert keys[..k + 1][..k] == keys[..k] && children[..k + 1][..k] == children[..k];
      fieldsData := Put(fieldsData, keys[k], children[k]);
      k := k + 1;
    }
    assert keys[..k] == keys && children[..k] == children;
  }

  /** One step of the `parse_dict` loop: the field takes the key as name and is added. */
  method AddNamedField(schema: Schema, field: Schema, key: string)
    requires schema.kind == Record && field != schema
    modifies schema, field`name
    ensures schema.Shape() == old(schema.Shape()) && schema.name == old(schema.name) && schema.element == old(schema.element)
    ensures schema.MetaContent() == old(schema.MetaContent())
    ensures schema.fieldsList == old(schema.fieldsList) + [field]
    ensures field.name == FieldName(key, |old(schema.fieldsList)|)
  {
    field.name := key;
    schema.AddField(field);
  }

  /** The dict `{keys[j]: children[j]}` filled in order, a later key overwriting an earlier one. */
  function PutAll(keys: seq<string>, children: seq<Node>): (m: OMap<string, Node>)
    requires |keys| == |children|
  {
    if |keys| == 0 then []
    else Put(PutAll(keys[..|keys| - 1], children[..|keys| - 1]), keys[|keys| - 1], children[|keys| - 1])
  }

  /** With distinct keys, every child is stored under its own key, in order. */
  lemma {:induction false} PutAllDistinct(keys: seq<string>, children: seq<Node>)
    requires |keys| == |children| && Distinct(keys)
    ensures StoredUnder(PutAll(keys, children), keys, children)
    decreases |keys|
  {
    if |keys| > 0 {
      var n := |keys| - 1;
      var ks, cs := keys[..n], children[..n];
      assert Distinct(ks) by {
        forall i, j | 0 <= i < j < n ensures ks[i] != ks[j] {
          assert ks[i] == keys[i] && ks[j] == keys[j];
        }
      }
      PutAllDistinct(ks, cs);
      var m := PutAll(ks, cs);
      assert keys[n] !in Keys(m) by {
        forall j | 0 <= j < n ensures m[j].0 != keys[n] {
          assert m[j] == (ks[j], cs[j]);
        }
      }
      PutNew(m, keys[n], children[n]);
    }
  }
}
