/**
 * Nodes: the value tree.  A node holds a primitive value, a list of child
 * nodes, or an ordered name-to-child map, and is bound to a schema whose
 * kind says which of the three is meant.
 */
module Nodes {
  import opened Wrappers
  import opened Values
  import opened OrderedMap
  import opened Meta
  import opened Schemas

  class Node {
    var schema: Schema?
    var name: string
    var value: Value
    var fields: OMap<string, Node>
    var elements: seq<Node>
    var comments: seq<string>
    var attr: Attrs
    var tags: seq<string>

    /** A node has no `required` flag: it reads as false. */
    function MetaContent(): MetaData
      reads this
    {
      MetaData(comments, attr, tags, false)
    }

    /**
     * `Node(schema, name=..., value=..., fields=..., elements=...)`; the
     * omitted arguments are passed as "", `[]` and `[]`.
     */
    constructor(schema: Schema?, name: string, value: Value, fields: OMap<string, Node>, elements: seq<Node>)
      ensures this.schema == schema && this.name == name && this.value == value
      ensures this.fields == fields && this.elements == elements
      ensures MetaContent() == EmptyMeta
    {
      this.schema := schema;
      this.name := name;
      this.value := value;
      this.fields := fields;
      this.elements := elements;
      comments := [];
      attr := [];
      tags := [];
    }

    predicate IsPrimitive()
      reads this, schema
    {
      schema != null && schema.kind == Primitive
    }

    predicate IsRecord()
      reads this, schema
    {
      schema != null && schema.kind == Record
    }

    predicate IsList()
      reads this, schema
    {
      schema != null && schema.kind == SchemaKind.List
    }

    /** `Node.clear_meta`: only comments, attributes and tags. */
    method ClearMeta()
      modifies this
      ensures MetaContent() == ClearCommon(old(MetaContent()))
      ensures schema == old(schema) && name == old(name) && value == old(value)
      ensures fields == old(fields) && elements == old(elements)
    {
      comments := [];
      attr := [];
      tags := [];
    }

    /** `Node.apply_meta`: the common merge only; a node never gains `required`. */
    method ApplyMeta(info: MetaData)
      modifies this`comments, this`attr, this`tags
      ensures MetaContent() == ApplyCommon(old(MetaContent()), info)
      ensures schema == old(schema) && name == old(name) && value == old(value)
      ensures fields == old(fields) && elements == old(elements)
    {
      var c, a, t := comments, attr, tags;
      if info.comments != [] {
        c := c + info.comments;
      }
      if info.attr != [] {
        a := OrderedMap.Update(a, info.attr);
      }
      if info.tags != [] {
        t := t + info.tags;
      }
      assert c == comments + info.comments && a == OrderedMap.Update(attr, info.attr) && t == tags + info.tags;
      comments, attr, tags := c, a, t;
    }

    /**
     * `Node.dict()`: the node flattened to a host value.  `fuel` bounds the
     * recursion; None means it ran out.
     */
    function Dict(fuel: nat): (r: Option<Value>)
      reads *
      decreases fuel, 0
      ensures r.Some? ==> fuel > 0
      ensures r.Some? && IsPrimitive() ==> r.value == value
      ensures r.Some? && IsList() ==> r.value.List? && |r.value.items| == |elements|
      ensures r.Some? && IsRecord() ==> r.value.Dict? && Keys(r.value.entries) == Keys(fields)
      ensures r.Some? && !IsPrimitive() && !IsList() && !IsRecord() ==> r.value == value
    {
      if fuel == 0 then None
      else if IsPrimitive() then Some(value)
      else if IsList() then
        match DictAll(elements, fuel - 1)
        case None => None
        case Some(items) => Some(Value.List(items))
      else if IsRecord() then
        match DictFields(fields, fuel - 1)
        case None => None
        case Some(entries) => Some(Value.Dict(entries))
      else Some(value)
    }

    /** `[e.dict() for e in ns]`. */
    static function DictAll(ns: seq<Node>, fuel: nat): (r: Option<seq<Value>>)
      reads *
      decreases fuel, 1, |ns|
      ensures r.Some? <==> forall k :: 0 <= k < |ns| ==> ns[k].Dict(fuel).Some?
      ensures r.Some? ==> |r.value| == |ns| && forall k :: 0 <= k < |ns| ==> ns[k].Dict(fuel) == Some(r.value[k])
    {
      if |ns| == 0 then Some([])
      else
        match ns[0].Dict(fuel)
        case None => None
        case Some(v) =>
          match DictAll(ns[1..], fuel)
          case None => None
          case Some(vs) => Some([v] + vs)
    }

    /** `{k: n.dict() for k, n in fs.items()}`. */
    static function DictFields(fs: OMap<string, Node>, fuel: nat): (r: Option<OMap<string, Value>>)
      reads *
      decreases fuel, 1, |fs|
      ensures r.Some? <==> forall k :: 0 <= k < |fs| ==> fs[k].1.Dict(fuel).Some?
      ensures r.Some? ==> |r.value| == |fs| && Keys(r.value) == Keys(fs)
      ensures r.Some? ==> forall k :: 0 <= k < |fs| ==> r.value[k].0 == fs[k].0 && fs[k].1.Dict(fuel) == Some(r.value[k].1)
    {
      if |fs| == 0 then Some([])
      else
        var head := fs[0].1.Dict(fuel);
        var tail := DictFields(fs[1..], fuel);
        if head.None? || tail.None? then None
        else Some([(fs[0].0, head.value)] + tail.value)
    }
  }

  /** More fuel never changes a flattening that already succeeded. */
  lemma {:induction false} DictFuel(n: Node, f: nat, g: nat)
    requires f <= g && n.Dict(f).Some?
    ensures n.Dict(g) == n.Dict(f)
    decreases f, 0
  {
    if n.IsList() {
      DictAllFuel(n.elements, f - 1, g - 1);
    } else if !n.IsPrimitive() && n.IsRecord() {
      DictFieldsFuel(n.fields, f - 1, g - 1);
    }
  }

  lemma {:induction false} DictAllFuel(ns: seq<Node>, f: nat, g: nat)
    requires f <= g && Node.DictAll(ns, f).Some?
    ensures Node.DictAll(ns, g) == Node.DictAll(ns, f)
    decreases f, 1, |ns|
  {
    if |ns| > 0 {
      DictFuel(ns[0], f, g);
      DictAllFuel(ns[1..], f, g);
    }
  }

  lemma {:induction false} DictFieldsFuel(fs: OMap<string, Node>, f: nat, g: nat)
    requires f <= g && Node.DictFields(fs, f).Some?
    ensures Node.DictFields(fs, g) == Node.DictFields(fs, f)
    decreases f, 1, |fs|
  {
    if |fs| > 0 {
      DictFuel(fs[0].1, f, g);
      DictFieldsFuel(fs[1..], f, g);
    }
  }
}
