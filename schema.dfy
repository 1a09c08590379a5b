/**
 * Schemas: a kind tag, a type name, an ordered field list with a
 * name-to-field map beside it, a list element, and metadata.  Schemas are
 * shared objects: the decoder hands out one object for every reference to
 * a named type, so changes through one holder are seen by all.
 */
module Schemas {
  import opened Wrappers
  import opened Text
  import opened Meta

  datatype SchemaKind = Primitive | Record | List | Dict | Any

  /** The two fields the decoder and encoder compare: kind and type name. */
  datatype Shape = MkShape(kind: SchemaKind, typeName: string)
  {
    /** `Schema.is_any`. */
    predicate IsAny()
    {
      kind == Any || (typeName == "any" && kind == Primitive) || (typeName == "any" && kind == Record)
    }
  }

  /** A list (or dict) schema is never `any`; an `Any` schema always is. */
  lemma IsAnyByKind(s: Shape)
    ensures s.kind == List || s.kind == Dict ==> !s.IsAny()
    ensures s.kind == Any ==> s.IsAny()
    ensures s.kind == Primitive || s.kind == Record ==> (s.IsAny() <==> s.typeName == "any")
  {
  }

  /** First position of `x` in `s` (Python's `list.index`, by identity). */
  function IndexOf<T(==)>(s: seq<T>, x: T): (k: nat)
    requires x in s
    ensures k < |s| && s[k] == x
  {
    if s[0] == x then 0 else 1 + IndexOf(s[1..], x)
  }

  /** No earlier position holds `x`: `IndexOf` finds the first one. */
  lemma {:induction false} IndexOfFirst<T>(s: seq<T>, x: T)
    requires x in s
    ensures forall j :: 0 <= j < IndexOf(s, x) ==> s[j] != x
  {
    if s[0] != x {
      IndexOfFirst(s[1..], x);
      forall j | 0 < j < IndexOf(s, x) ensures s[j] != x {
        assert s[j] == s[1..][j - 1];
      }
    }
  }

  /** The first position of the item at `k` is at most `k`. */
  lemma IndexOfAtMost<T>(s: seq<T>, k: nat)
    requires k < |s|
    ensures IndexOf(s, s[k]) <= k
  {
    IndexOfFirst(s, s[k]);
  }

  /** The field name `add_field` settles on: the given one, else the field count. */
  function FieldName(given: string, count: nat): (n: string)
    ensures n != ""
    ensures given != "" ==> n == given
  {
    if given != "" then given else IntToString(count)
  }

  class Schema {
    var kind: SchemaKind
    var typeName: string
    var name: string
    var element: Schema?
    var fieldsList: seq<Schema>
    var fieldsMap: map<string, Schema>
    var comments: seq<string>
    var attr: Attrs
    var tags: seq<string>
    var required: bool

    function Shape(): Shape
      reads this`kind, this`typeName
    {
      MkShape(kind, typeName)
    }

    function MetaContent(): MetaData
      reads this`comments, this`attr, this`tags, this`required
    {
      MetaData(comments, attr, tags, required)
    }

    /**
     * `Schema(kind, type_name=..., name=..., element=...)`; an empty
     * `typeName` stands for None and becomes "any".
     */
    constructor(kind: SchemaKind, typeName: string, name: string, element: Schema?)
      ensures this.kind == kind && this.name == name && this.element == element
      ensures this.typeName == if typeName == "" then "any" else typeName
      ensures fieldsList == [] && fieldsMap == map[]
      ensures MetaContent() == EmptyMeta
    {
      this.kind := kind;
      this.typeName := if typeName == "" then "any" else typeName;
      this.name := name;
      this.element := element;
      fieldsList := [];
      fieldsMap := map[];
      comments := [];
      attr := [];
      tags := [];
      required := false;
    }

    /**
     * The `fields=` argument of the constructor: each given field is added
     * with `add_field`, in order.
     */
    constructor WithFields(kind: SchemaKind, typeName: string, name: string, fields: seq<Schema>)
      modifies fields
      ensures this.name == name && element == null
      ensures this.typeName == if typeName == "" then "any" else typeName
      ensures this.kind == if |fields| == 0 then kind else Record
      ensures fieldsList == fields
      ensures MetaContent() == EmptyMeta
      ensures forall f :: f in fields ==> f.name == FieldName(old(f.name), IndexOf(fields, f))
      ensures forall f :: f in fields ==> f.name in fieldsMap
    {
      this.kind := kind;
      this.typeName := if typeName == "" then "any" else typeName;
      this.name := name;
      element := null;
      fieldsList := [];
      fieldsMap := map[];
      comments := [];
      attr := [];
      tags := [];
      required := false;
      new;
      AddFields(fields);
    }

    /** The loop of the constructor: `add_field` for each given field, in order. */
    method AddFields(fields: seq<Schema>)
      requires fieldsList == [] && this !in fields
      modifies this, fields
      ensures kind == if |fields| == 0 then old(kind) else Record
      ensures typeName == old(typeName) && name == old(name) && element == old(element)
      ensures MetaContent() == old(MetaContent())
      ensures fieldsList == fields
      ensures forall f :: f in fields ==> f.name == FieldName(old(f.name), IndexOf(fields, f))
      ensures forall f :: f in fields ==> f.name in fieldsMap
    {
      var k := 0;
      while k < |fields|
        invariant 0 <= k <= |fields|
        invariant kind == if k == 0 then old(kind) else Record
        invariant typeName == old(typeName) && name == old(name) && element == old(element)
        invariant MetaContent() == old(MetaContent())
        invariant fieldsList == fields[..k]
        invariant forall f :: f in fields ==>
          f.name == if IndexOf(fields, f) < k then FieldName(old(f.name), IndexOf(fields, f)) else old(f.name)
        invariant forall f :: f in fields[..k] ==> f.name in fieldsMap
      {
        var field := fields[k];
        IndexOfAtMost(fields, k);
        label Adding:
        AddField(field);
        assert fields[..k + 1] == fields[..k] + [field];
        forall f | f in fields
          ensures f.name == if IndexOf(fields, f) <= k then FieldName(old(f.name), IndexOf(fields, f)) else old(f.name)
          ensures f in fields[..k + 1] ==> f.name in fieldsMap
        {
          if f != field {
            assert f.name == old@Adding(f.name);
            assert IndexOf(fields, f) != k;
            if f in fields[..k] {
              assert f.name in old@Adding(fieldsMap);
            }
          }
        }
        k := k + 1;
      }
    }

    predicate IsPrimitive() reads this { kind == Primitive }

    predicate IsRecord() reads this { kind == Record }

    predicate IsList() reads this`kind { kind == List }

    predicate IsAny() reads this`kind, this`typeName { Shape().IsAny() }

    /** `clear_fields`. */
    method ClearFields()
      modifies this
      ensures fieldsList == [] && fieldsMap == map[]
      ensures kind == old(kind) && typeName == old(typeName) && name == old(name) && element == old(element)
      ensures MetaContent() == old(MetaContent())
    {
      fieldsList := [];
      fieldsMap := map[];
    }

    /**
     * `add_field`: the schema becomes a record, the field is named (the
     * field count when it had no name), appended last and mapped by name.
     */
    method AddField(field: Schema)
      modifies this, (if field.name == "" then {field} else {})`name
      ensures kind == Record
      ensures field.name == FieldName(old(field.name), |old(fieldsList)|)
      ensures fieldsList == old(fieldsList) + [field]
      ensures fieldsMap == old(fieldsMap)[field.name := field]
      ensures typeName == old(typeName) && element == old(element)
      ensures field != this ==> name == old(name)
      ensures MetaContent() == old(MetaContent())
    {
      if kind != Record {
        kind := Record;
      }
      var fName := FieldName(field.name, |fieldsList|);
      // Python writes the name back unconditionally; a named field gets its own name again.
      if field.name == "" {
        field.name := fName;
      }
      fieldsList := fieldsList + [field];
      fieldsMap := fieldsMap[fName := field];
    }

    /**
     * `replace_field`: an unnamed field is refused (ValueError).  A field
     * whose name is mapped takes the old field's place in the list, or is
     * appended when the old one is not in the list; an unknown name is
     * added as by `add_field`.
     */
    method ReplaceField(field: Schema) returns (r: Result<(), string>)
      modifies this
      ensures old(field.name) == "" ==> r == Err("Cannot replace a field without a name.") && unchanged(this) && unchanged(field)
      ensures old(field.name) != "" ==> r.Ok? && field.name == old(field.name)
      ensures old(field.name) != "" && old(field.name) in old(fieldsMap) ==>
        && kind == old(kind)
        && fieldsMap == old(fieldsMap)[field.name := field]
        && var prev := old(fieldsMap)[field.name];
           if prev in old(fieldsList)
           then fieldsList == old(fieldsList)[IndexOf(old(fieldsList), prev) := field]
           else fieldsList == old(fieldsList) + [field]
      ensures old(field.name) != "" && old(field.name) !in old(fieldsMap) ==>
        && kind == Record
        && fieldsList == old(fieldsList) + [field]
        && fieldsMap == old(fieldsMap)[field.name := field]
      ensures typeName == old(typeName) && element == old(element) && name == old(name)
      ensures MetaContent() == old(MetaContent())
    {
      var fName := field.name;
      if fName == "" {
        return Err("Cannot replace a field without a name.");
      }
      if fName in fieldsMap {
        var prev := fieldsMap[fName];
        if prev in fieldsList {
          var idx := IndexOf(fieldsList, prev);
          fieldsList := fieldsList[idx := field];
        } else {
          fieldsList := fieldsList + [field];
        }
        fieldsMap := fieldsMap[fName := field];
      } else {
        AddField(field);
      }
      return Ok(());
    }

    /** `Schema.clear_meta`: common metadata cleared and `required` reset. */
    method ClearMeta()
      modifies this`comments, this`attr, this`tags, this`required
      ensures MetaContent() == EmptyMeta
      ensures Shape() == old(Shape()) && name == old(name) && element == old(element)
      ensures fieldsList == old(fieldsList) && fieldsMap == old(fieldsMap)
    {
      comments := [];
      attr := [];
      tags := [];
      required := false;
    }

    /**
     * `Schema.apply_meta`: the common merge, and `required` only ever
     * switched on.
     */
    method ApplyMeta(info: MetaData)
      modifies this`comments, this`attr, this`tags, this`required
      ensures MetaContent() == ApplyCommon(old(MetaContent()), info).(required := old(required) || info.required)
      ensures old(required) ==> required
      ensures Shape() == old(Shape()) && name == old(name) && element == old(element)
      ensures fieldsList == old(fieldsList) && fieldsMap == old(fieldsMap)
    {
      var c, a, t := comments, attr, tags;
      if info.comments != [] {
        c := c + info.comments;
      }
      if info.attr != [] {
        a := OrderedMap.Update(a, info.attr);
      }
      if info.tags != [] {
        t := t + info.tags;
      }
      assert c == comments + info.comments && a == OrderedMap.Update(attr, info.attr) && t == tags + info.tags;
      comments, attr, tags := c, a, t;
      if info.required {
        required := true;
      }
    }
  }
}
