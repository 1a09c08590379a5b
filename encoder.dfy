/**
 * The encoder: a node and its schema rendered back to ADF text.  The data
 * part of the text is a pure function of the node tree; the schema header
 * is written by a method, because `encode_schema` moves a list element's
 * metadata onto the list schema while it renders.  Colouring is not
 * modelled: every piece is rendered as with `colorize` off.
 */
module Encoding {
  import opened Wrappers
  import opened Values
  import opened Text
  import opened OrderedMap
  import opened Meta
  import opened Schemas
  import opened Nodes

  /** The exceptions the encoder raises, and the one rendering left out of this model. */
  datatype Failure =
    /** `None.is_primitive` or `None.comments`: a list schema without an element. */
    | AttributeError
    /** The recursion ran out of fuel: a cyclic (or very deep) schema or node graph. */
    | RecursionError
    /** `str()` of a list, dict or other object used as a primitive value. */
    | ReprNotModelled

  /** A configuration value: a flag or a number (Python's `bool` is an `int`). */
  datatype Setting = Flag(b: bool) | Number(n: int)

  /** The `Config` dictionary. */
  type Config = OMap<string, Setting>

  /** `config.get(key, default)` read as a truth value. */
  function FlagOf(config: Config, key: string, default: bool): bool
  {
    var v := Get(config, key);
    if v.None? then default
    else match v.value
      case Flag(b) => b
      case Number(n) => n != 0
  }

  /** `config.get(key, default)` read as a number. */
  function NumberOf(config: Config, key: string, default: int): int
  {
    var v := Get(config, key);
    if v.None? then default
    else match v.value
      case Flag(b) => if b then 1 else 0
      case Number(n) => n
  }

  /** The failure of the first of two results that failed, else the second's text after the first's. */
  function Then(a: Result<string, Failure>, b: Result<string, Failure>): (r: Result<string, Failure>)
    ensures r.Ok? <==> a.Ok? && b.Ok?
    ensures r.Ok? ==> r.value == a.value + b.value
    ensures a.Err? ==> r == a
    ensures a.Ok? && b.Err? ==> r == b
  {
    if a.Err? then a else if b.Err? then b else Ok(a.value + b.value)
  }

  /**
   * `_schemas_are_compatible`: whether a value whose schema is `nodeSchema`
   * can stand where `expected` is expected without an inline type tag.
   */
  function Compatible(nodeSchema: Schema?, expected: Schema?): (c: bool)
    reads nodeSchema, expected
    ensures expected == null || expected.IsAny() ==> c
    ensures nodeSchema == null ==> c
    ensures nodeSchema != null && expected != null && !expected.IsAny() && nodeSchema.kind != expected.kind ==> !c
    ensures nodeSchema != null && expected != null && !expected.IsAny() && nodeSchema.kind == Primitive && expected.kind == Primitive ==>
      (c <==> nodeSchema.typeName == expected.typeName)
    ensures nodeSchema != null && expected != null && !expected.IsAny() && nodeSchema.kind == expected.kind && nodeSchema.kind != Primitive ==> c
  {
    if expected == null || expected.IsAny() then true
    else if nodeSchema == null then true
    else if nodeSchema.kind != expected.kind then false
    else if nodeSchema.IsPrimitive() && expected.IsPrimitive() then nodeSchema.typeName == expected.typeName
    else true
  }

  /** A value never needs a tag against its own schema. */
  lemma {:induction false} CompatibleWithItself(s: Schema?)
    ensures Compatible(s, s)
  {
  }

  /**
   * `_get_type_label`: the primitive's type name, `[label]` of a list's
   * element, a record's own type name unless it is empty or `any`, and
   * `any` otherwise.  `fuel` bounds the walk down the element chain.
   */
  function TypeLabel(s: Schema, fuel: nat): (r: Result<string, Failure>)
    reads *
    decreases fuel
    ensures fuel == 0 ==> r == Err(RecursionError)
    ensures fuel > 0 && s.kind == Primitive ==> r == Ok(s.typeName)
    ensures fuel > 0 && s.kind == SchemaKind.List && s.element == null ==> r == Err(AttributeError)
    ensures r.Ok? && s.kind == SchemaKind.List ==> |r.value| >= 2 && r.value[0] == '[' && r.value[|r.value| - 1] == ']'
    ensures fuel > 0 && s.kind == Record ==> r == Ok(if s.typeName != "" && s.typeName != "any" then s.typeName else "any")
    ensures fuel > 0 && (s.kind == Any || s.kind == SchemaKind.Dict) ==> r == Ok("any")
  {
    if fuel == 0 then Err(RecursionError)
    else if s.IsPrimitive() then Ok(s.typeName)
    else if s.IsList() then
      if s.element == null then Err(AttributeError)
      else
        var inner := TypeLabel(s.element, fuel - 1);
        if inner.Err? then inner
        else Ok("[" + inner.value + "]")
    else if s.IsRecord() && s.typeName != "" && s.typeName != "any" then Ok(s.typeName)
    else Ok("any")
  }

  /** More fuel never changes a label that was found. */
  lemma {:induction false} TypeLabelFuel(s: Schema, f: nat, g: nat)
    requires f <= g && TypeLabel(s, f).Ok?
    ensures TypeLabel(s, g) == TypeLabel(s, f)
    decreases f
  {
    if s.kind == SchemaKind.List {
      TypeLabelFuel(s.element, f - 1, g - 1);
    }
  }

  /**
   * Every schema reached from `s` through elements and fields in at most
   * `fuel` steps is in `S` (and `s` itself when it is not null).
   */
  ghost predicate ReachIn(s: Schema?, fuel: nat, S: set<Schema>)
    reads S`element, S`fieldsList
    decreases fuel
  {
    s == null ||
    (s in S &&
     (fuel == 0 ||
      (ReachIn(s.element, fuel - 1, S) &&
       forall k :: 0 <= k < |s.fieldsList| ==> ReachIn(s.fieldsList[k], fuel - 1, S))))
  }

  /** The schemas reached from `s` in at most `fuel` steps. */
  ghost function Reach(s: Schema?, fuel: nat): set<Schema>
    reads *
    decreases fuel, 0
  {
    if s == null then {}
    else if fuel == 0 then {s}
    else {s} + Reach(s.element, fuel - 1) + ReachFields(s.fieldsList, fuel - 1)
  }

  ghost function ReachFields(fs: seq<Schema>, fuel: nat): set<Schema>
    reads *
    decreases fuel, 1, |fs|
  {
    if |fs| == 0 then {} else Reach(fs[0], fuel) + ReachFields(fs[1..], fuel)
  }

  lemma {:induction false} ReachInMono(s: Schema?, fuel: nat, A: set<Schema>, B: set<Schema>)
    requires A <= B && ReachIn(s, fuel, A)
    ensures ReachIn(s, fuel, B)
    decreases fuel
  {
    if s != null && fuel > 0 {
      ReachInMono(s.element, fuel - 1, A, B);
      forall k | 0 <= k < |s.fieldsList| ensures ReachIn(s.fieldsList[k], fuel - 1, B) {
        ReachInMono(s.fieldsList[k], fuel - 1, A, B);
      }
    }
  }

  /** `Reach` covers what it is meant to: the frame of the header methods. */
  lemma {:induction false} ReachCovers(s: Schema?, fuel: nat)
    ensures ReachIn(s, fuel, Reach(s, fuel))
    decreases fuel, 0
  {
    if s != null && fuel > 0 {
      var R := Reach(s, fuel);
      ReachCovers(s.element, fuel - 1);
      ReachInMono(s.element, fuel - 1, Reach(s.element, fuel - 1), R);
      forall k | 0 <= k < |s.fieldsList| ensures ReachIn(s.fieldsList[k], fuel - 1, R) {
        ReachFieldsCover(s.fieldsList, fuel - 1, k);
        ReachInMono(s.fieldsList[k], fuel - 1, ReachFields(s.fieldsList, fuel - 1), R);
      }
    }
  }

  lemma {:induction false} ReachFieldsCover(fs: seq<Schema>, fuel: nat, k: nat)
    requires k < |fs|
    ensures ReachIn(fs[k], fuel, ReachFields(fs, fuel))
    decreases fuel, 1, |fs|
  {
    if k == 0 {
      ReachCovers(fs[0], fuel);
      ReachInMono(fs[0], fuel, Reach(fs[0], fuel), ReachFields(fs, fuel));
    } else {
      ReachFieldsCover(fs[1..], fuel, k - 1);
      assert fs[1..][k - 1] == fs[k];
      ReachInMono(fs[k], fuel, ReachFields(fs[1..], fuel), ReachFields(fs, fuel));
    }
  }

  /** A set closed under elements and fields. */
  ghost predicate Closed(S: set<Schema>)
    reads S`element, S`fieldsList
  {
    forall s :: s in S ==> (s.element == null || s.element in S) && forall k :: 0 <= k < |s.fieldsList| ==> s.fieldsList[k] in S
  }

  /** Everything reached from a member of a closed set is in the set, at any depth. */
  lemma {:induction false} ClosedReach(S: set<Schema>, s: Schema?, fuel: nat)
    requires Closed(S) && (s == null || s in S)
    ensures ReachIn(s, fuel, S)
    decreases fuel
  {
    if s != null && fuel > 0 {
      ClosedReach(S, s.element, fuel - 1);
      forall k | 0 <= k < |s.fieldsList| ensures ReachIn(s.fieldsList[k], fuel - 1, S) {
        ClosedReach(S, s.fieldsList[k], fuel - 1);
      }
    }
  }

  /** The text of `_string`'s output between the quotes, one source character at a time. */
  function EscapedChar(c: char, escapeNewLines: bool): (t: string)
  {
    if c == '"' then "\\\""
    else if escapeNewLines && (c == '\n' || c == '\r') then "\\n"
    else [c]
  }

  function EscapedChars(s: string, escapeNewLines: bool): (t: string)
  {
    if |s| == 0 then "" else EscapedChar(s[0], escapeNewLines) + EscapedChars(s[1..], escapeNewLines)
  }

  /** Quoting alone: each `"` becomes `\"`, every other character (a backslash too) stays. */
  lemma {:induction false} QuotesEscaped(s: string)
    ensures Replace(s, "\"", "\\\"") == EscapedChars(s, false)
    decreases |s|
  {
    if |s| > 0 {
      assert s == [s[0]] + s[1..];
      ReplaceCharCons(s[0], s[1..], '"', "\\\"");
      QuotesEscaped(s[1..]);
    }
  }

  /** With `escape_new_lines` and no carriage return, the two replacements are `EscapedChars`. */
  lemma {:induction false} NewlinesEscaped(s: string)
    requires '\r' !in s
    ensures Replace(Replace(s, "\n", "\\n"), "\"", "\\\"") == EscapedChars(s, true)
    decreases |s|
  {
    if |s| > 0 {
      var c, t := s[0], s[1..];
      assert s == [c] + t;
      ReplaceCharCons(c, t, '\n', "\\n");
      var head := if c == '\n' then "\\n" else [c];
      ReplaceCharConcat(head, Replace(t, "\n", "\\n"), '"', "\\\"");
      if c == '\n' {
        ReplaceAbsent(head, "\"", "\\\"");
      } else {
        ReplaceCharCons(c, "", '"', "\\\"");
        assert [c] + "" == [c];
      }
      NewlinesEscaped(t);
    }
  }

  /** `t` is `pad`, then `[`, then the rest of a list ending in `]`. */
  predicate Bracketed(t: string, pad: string)
  {
    |t| >= |pad| + 2 && t[..|pad|] == pad && t[|pad|] == '[' && t[|t| - 1] == ']'
  }

  /** No item of the sequence is the empty string. */
  predicate NoEmptyItem(items: seq<string>)
  {
    forall k :: 0 <= k < |items| ==> items[k] != ""
  }

  lemma {:induction false} NoEmptyItemConcat(a: seq<string>, b: seq<string>)
    requires NoEmptyItem(a) && NoEmptyItem(b)
    ensures NoEmptyItem(a + b)
  {
    forall k | 0 <= k < |a + b| ensures (a + b)[k] != "" {
      if k >= |a| {
        assert (a + b)[k] == b[k - |a|];
      }
    }
  }

  class Encoder {
    const indent: int
    const startIndent: int
    const compact: bool
    const escapeNewLines: bool
    /** Read from the configuration; the colouring it switches on is not modelled. */
    const colorize: bool
    const includeComments: bool
    const includeArraySize: bool
    const includeSchema: bool
    const includeType: bool
    const includeMeta: bool
    /** Read from the configuration and never used by the encoder. */
    const promptOutput: bool

    /** `Encoder(config)`: each setting read with its default. */
    constructor(config: Config)
      ensures indent == NumberOf(config, "indent", 2) && startIndent == NumberOf(config, "start_indent", 0)
      ensures compact == FlagOf(config, "compact", false) && escapeNewLines == FlagOf(config, "escape_new_lines", false)
      ensures colorize == FlagOf(config, "colorize", false) && includeComments == FlagOf(config, "include_comments", true)
      ensures includeArraySize == FlagOf(config, "include_array_size", false) && includeSchema == FlagOf(config, "include_schema", true)
      ensures includeType == FlagOf(config, "include_type", true) && includeMeta == FlagOf(config, "include_meta", true)
      ensures promptOutput == FlagOf(config, "prompt_output", false)
    {
      indent := NumberOf(config, "indent", 2);
      startIndent := NumberOf(config, "start_indent", 0);
      compact := FlagOf(config, "compact", false);
      escapeNewLines := FlagOf(config, "escape_new_lines", false);
      colorize := FlagOf(config, "colorize", false);
      includeComments := FlagOf(config, "include_comments", true);
      includeArraySize := FlagOf(config, "include_array_size", false);
      includeSchema := FlagOf(config, "include_schema", true);
      includeType := FlagOf(config, "include_type", true);
      includeMeta := FlagOf(config, "include_meta", true);
      promptOutput := FlagOf(config, "prompt_output", false);
    }

    /** The padding that compact mode drops. */
    function Pad(): string
    {
      if compact then "" else " "
    }

    // ----------------------------------------------------------------
    // Primitive values
    // ----------------------------------------------------------------

    /**
     * `_string`: with `escape_new_lines`, `\r\n`, `\r` and `\n` become the
     * two characters `\n`; then every `"` becomes `\"`.  Backslashes are
     * left as they are.
     */
    function StringText(s: string): string
    {
      var content := if escapeNewLines then Replace(Replace(Replace(s, "\r\n", "\\n"), "\r", "\\n"), "\n", "\\n") else s;
      "\"" + Replace(content, "\"", "\\\"") + "\""
    }

    /**
     * `_string` quotes character by character as `EscapedChars` says: a
     * `"` becomes `\"`, a backslash passes through, and with
     * `escape_new_lines` a newline becomes `\n`.  (A carriage return is
     * excluded there: `\r\n` becomes one `\n`, not two.)
     */
    lemma StringTextEscapes(s: string)
      requires escapeNewLines ==> '\r' !in s
      ensures StringText(s) == "\"" + EscapedChars(s, escapeNewLines) + "\""
    {
      if escapeNewLines {
        ReplaceAbsent(s, "\r\n", "\\n");
        ReplaceAbsent(s, "\r", "\\n");
        NewlinesEscaped(s);
      } else {
        QuotesEscaped(s);
      }
    }

    /** `_primitive`: strings quoted, `true`, `false`, `null`, and `str()` of a number. */
    function ValueText(v: Value): (r: Result<string, Failure>)
      ensures r.Ok? <==> IsPrimitive(v)
      ensures !IsPrimitive(v) ==> r == Err(ReprNotModelled)
      ensures v.Str? ==> r == Ok(StringText(v.s))
      ensures v.Int? ==> r == Ok(IntToString(v.i))
    {
      match v
      case Str(s) => Ok(StringText(s))
      case Bool(b) => Ok(if b then "true" else "false")
      case Null => Ok("null")
      case Int(i) => Ok(IntToString(i))
      case Float(text) => Ok(text)
      case _ => Err(ReprNotModelled)
    }

    // ----------------------------------------------------------------
    // Metadata
    // ----------------------------------------------------------------

    function CommentItems(cs: seq<string>): (items: seq<string>)
      ensures |items| == |cs|
      ensures forall k :: 0 <= k < |cs| ==> items[k] == "/*" + Pad() + Strip(cs[k]) + Pad() + "*/"
    {
      seq(|cs|, k requires 0 <= k < |cs| => "/*" + Pad() + Strip(cs[k]) + Pad() + "*/")
    }

    function AttrItems(attr: Attrs): (r: Result<seq<string>, Failure>)
      ensures r.Ok? <==> forall k :: 0 <= k < |attr| ==> IsPrimitive(attr[k].1)
      ensures r.Ok? ==> |r.value| == |attr|
      ensures r.Ok? ==> forall k :: 0 <= k < |attr| ==> r.value[k] == "$" + attr[k].0 + "=" + ValueText(attr[k].1).value
    {
      if |attr| == 0 then Ok([])
      else
        var head := ValueText(attr[0].1);
        var tail := AttrItems(attr[1..]);
        if head.Err? then Err(head.error)
        else if tail.Err? then tail
        else Ok(["$" + attr[0].0 + "=" + head.value] + tail.value)
    }

    function TagItems(tags: seq<string>): (items: seq<string>)
      ensures |items| == |tags|
      ensures forall k :: 0 <= k < |tags| ==> items[k] == "#" + tags[k]
    {
      seq(|tags|, k requires 0 <= k < |tags| => "#" + tags[k])
    }

    function ShownComments(m: MetaData): (items: seq<string>)
      ensures NoEmptyItem(items)
      ensures items == [] <==> !includeComments || m.comments == []
    {
      if includeComments && m.comments != [] then CommentItems(m.comments) else []
    }

    function ShownRequired(m: MetaData): (items: seq<string>)
      ensures items == [] <==> !m.required
    {
      if m.required then ["!required"] else []
    }

    function ShownAttrs(m: MetaData): (r: Result<seq<string>, Failure>)
      ensures r.Err? <==> includeMeta && exists k :: 0 <= k < |m.attr| && !IsPrimitive(m.attr[k].1)
      ensures r.Ok? ==> NoEmptyItem(r.value)
      ensures r.Ok? ==> (r.value == [] <==> !includeMeta || m.attr == [])
    {
      if includeMeta then AttrItems(m.attr) else Ok([])
    }

    function ShownTags(m: MetaData): (items: seq<string>)
      ensures NoEmptyItem(items)
      ensures items == [] <==> !includeMeta || m.tags == []
    {
      if includeMeta then TagItems(m.tags) else []
    }

    /**
     * The items of `_build_meta_string`, in order: comments (only with
     * `include_comments`), `!required` (always), attributes and tags (only
     * with `include_meta`).
     */
    function MetaItems(m: MetaData): (r: Result<seq<string>, Failure>)
      ensures r.Err? <==> includeMeta && exists k :: 0 <= k < |m.attr| && !IsPrimitive(m.attr[k].1)
      ensures r.Ok? ==> r.value == ShownComments(m) + ShownRequired(m) + ShownAttrs(m).value + ShownTags(m)
    {
      var attrs := ShownAttrs(m);
      if attrs.Err? then Err(attrs.error)
      else Ok(ShownComments(m) + ShownRequired(m) + attrs.value + ShownTags(m))
    }

    /** `_build_meta_string` (and `_meta_inline`): the items joined by spaces. */
    function MetaString(m: MetaData): (r: Result<string, Failure>)
      ensures r.Err? <==> MetaItems(m).Err?
      ensures r.Ok? ==> r.value == Join(" ", MetaItems(m).value)
    {
      var items := MetaItems(m);
      if items.Err? then Err(items.error)
      else if items.value == [] then Ok("")
      else Ok(Join(" ", items.value))
    }

    /**
     * The metadata string is empty exactly when there is nothing to show:
     * no comments to include, no `!required`, and no attributes or tags to
     * include.
     */
    lemma {:induction false} MetaStringEmpty(m: MetaData)
      requires MetaString(m).Ok?
      ensures MetaString(m).value == "" <==>
        !(includeComments && m.comments != []) && !m.required && !(includeMeta && (m.attr != [] || m.tags != []))
    {
      var c, q, a, t := ShownComments(m), ShownRequired(m), ShownAttrs(m).value, ShownTags(m);
      var items := c + q + a + t;
      assert |items| == |c| + |q| + |a| + |t|;
      if items != [] {
        NoEmptyItemConcat(c, q);
        NoEmptyItemConcat(c + q, a);
        NoEmptyItemConcat(c + q + a, t);
        JoinEnds(" ", items);
      }
    }

    /** `_wrap_meta`: nothing for empty content, else `/ content /` with compact or pretty spacing. */
    function WrapMeta(content: string): (r: string)
      ensures r == "" <==> content == ""
      ensures content != "" && compact ==> r == "/" + content + "/ "
      ensures content != "" && !compact ==> r == " / " + content + " / "
    {
      if content == "" then ""
      else
        var wrapped := "/" + Pad() + content + Pad() + "/";
        if compact then wrapped + " " else " " + wrapped + " "
    }

    /** `_meta_wrapped`. */
    function MetaWrapped(m: MetaData): (r: Result<string, Failure>)
      ensures r.Err? <==> MetaString(m).Err?
      ensures r.Err? ==> r == MetaString(m)
      ensures r.Ok? ==> r.value == WrapMeta(MetaString(m).value)
    {
      var s := MetaString(m);
      if s.Err? then s else Ok(WrapMeta(s.value))
    }

    // ----------------------------------------------------------------
    // Inline type tags
    // ----------------------------------------------------------------

    /**
     * `_apply_type_tag`: the value text unchanged when compatible, else
     * `<label> ` in front of it.
     */
    function TypeTag(val: string, nodeSchema: Schema?, expected: Schema?, fuel: nat): (r: Result<string, Failure>)
      reads *
      ensures Compatible(nodeSchema, expected) ==> r == Ok(val)
      ensures !Compatible(nodeSchema, expected) && nodeSchema != null && TypeLabel(nodeSchema, fuel).Ok? ==>
        r == Ok("<" + TypeLabel(nodeSchema, fuel).value + "> " + val)
      ensures !Compatible(nodeSchema, expected) && nodeSchema != null && TypeLabel(nodeSchema, fuel).Err? ==>
        r == Err(TypeLabel(nodeSchema, fuel).error)
    {
      if Compatible(nodeSchema, expected) then Ok(val)
      else
        var name := if nodeSchema != null then TypeLabel(nodeSchema, fuel) else Ok("any");
        if name.Err? then name else Ok("<" + name.value + "> " + val)
    }

    /** A tagged value still ends with the value's own text, after `> `. */
    lemma {:induction false} TaggedEndsWithValue(val: string, nodeSchema: Schema?, expected: Schema?, fuel: nat)
      requires TypeTag(val, nodeSchema, expected, fuel).Ok?
      ensures var r := TypeTag(val, nodeSchema, expected, fuel).value;
        |r| >= |val| && r[|r| - |val|..] == val
        && (r != val ==> |r| >= |val| + 3 && r[0] == '<' && r[|r| - |val| - 2..] == "> " + val)
    {
      var r := TypeTag(val, nodeSchema, expected, fuel).value;
      if r != val {
        var name := if nodeSchema != null then TypeLabel(nodeSchema, fuel).value else "any";
        var tail := "> " + val;
        assert r == ("<" + name) + tail;
        assert r[|r| - |tail|..] == tail;
        assert tail[2..] == val;
        assert r[|r| - |val|..] == r[|r| - |tail|..][2..];
      }
    }

    // ----------------------------------------------------------------
    // Data: `encode(node, indent, include_schema=False)`
    // ----------------------------------------------------------------

    /**
     * `encode` without a schema header: lists, primitives and records by
     * their own rules, and `null` for a node without a schema or with an
     * `any` or `dict` one.  `fuel` bounds the recursion through children.
     * The functions of this group carry no contracts of their own; what
     * they compute is stated by the lemmas that follow them.
     */
    function DataText(n: Node, indent: int, fuel: nat): Result<string, Failure>
      reads *
      decreases fuel, 4
    {
      if fuel == 0 then Err(RecursionError)
      else
        var base := startIndent + indent;
        if n.IsList() then ListText(n, base, fuel)
        else if n.IsPrimitive() then PrimitiveNodeText(n)
        else if n.IsRecord() then RecordText(n, base, fuel)
        else Ok("null")
    }

    /** An element's text inside a list or a record: stripped, then tagged against the expected schema. */
    function ChildText(child: Node, expected: Schema?, indent: int, fuel: nat): Result<string, Failure>
      reads *
      requires fuel > 0
      decreases fuel, 0
    {
      var val := DataText(child, indent, fuel - 1);
      if val.Err? then val else TypeTag(Strip(val.value), child.schema, expected, fuel - 1)
    }

    /** The list items from the element at `from` on: each element's text, in order. */
    function ListItems(els: seq<Node>, from: nat, expected: Schema?, indent: int, fuel: nat): Result<seq<string>, Failure>
      reads *
      requires fuel > 0 && from <= |els|
      decreases fuel, 2, |els| - from
    {
      if from == |els| then Ok([])
      else
        var head := ItemOf(els, from, expected, indent, fuel);
        if head.Err? then Err(head.error)
        else
          var tail := ListItems(els, from + 1, expected, indent, fuel);
          if tail.Err? then tail else Ok([head.value] + tail.value)
    }

    /** The item for the element at `k`, as `_list` computes it. */
    function ItemOf(els: seq<Node>, k: nat, expected: Schema?, indent: int, fuel: nat): Result<string, Failure>
      reads *
      requires fuel > 0 && k < |els|
      decreases fuel, 1
    {
      ChildText(els[k], expected, indent, fuel)
    }

    /**
     * `_list` with `include_schema=False` (the only way the encoder calls
     * it): compact, `[` meta items joined by `,` `]`; pretty, one line per
     * element under the header and the wrapped meta, then `]`.
     */
    function ListText(n: Node, indent: int, fuel: nat): Result<string, Failure>
      reads *
      requires fuel > 0 && n.IsList()
      decreases fuel, 3
    {
      var meta := MetaWrapped(n.MetaContent());
      if meta.Err? then meta
      else
        var expected := n.schema.element;
        var items := ListItems(n.elements, 0, expected, if compact then 0 else indent + this.indent - startIndent, fuel);
        if items.Err? then Err(items.error)
        else Ok(ListLayout(n, indent, meta.value, items.value))
    }

    /**
     * The record entries from the field at `from` on: for each schema field
     * in order, the child stored under its name (tagged against the field),
     * or `null` when there is none.
     */
    function RecordParts(fields: OMap<string, Node>, defs: seq<Schema>, from: nat, indent: int, fuel: nat): Result<seq<string>, Failure>
      reads *
      requires fuel > 0 && from <= |defs|
      decreases fuel, 2, |defs| - from
    {
      if from == |defs| then Ok([])
      else
        var head := PartOf(fields, defs[from], indent, fuel);
        if head.Err? then Err(head.error)
        else
          var tail := RecordParts(fields, defs, from + 1, indent, fuel);
          if tail.Err? then tail else Ok([head.value] + tail.value)
    }

    /**
     * `_record`: `(`, the wrapped metadata, the entries joined by `,` (`, `
     * outside compact mode), `)`; a schema without fields gives `(null)`.
     */
    function RecordText(n: Node, indent: int, fuel: nat): Result<string, Failure>
      reads *
      requires fuel > 0 && n.IsRecord()
      decreases fuel, 3
    {
      var meta := MetaWrapped(n.MetaContent());
      if meta.Err? then meta
      else if n.schema.fieldsList == [] then Ok("(" + meta.value + "null)")
      else
        var parts := RecordParts(n.fields, n.schema.fieldsList, 0, indent - startIndent, fuel);
        if parts.Err? then Err(parts.error)
        else Ok("(" + meta.value + Join(if compact then "," else ", ", parts.value) + ")")
    }

    /** `_primitive_node`: the inline metadata and a space, if any, then the value. */
    function PrimitiveNodeText(n: Node): (r: Result<string, Failure>)
      reads n
      ensures r.Ok? <==> MetaString(n.MetaContent()).Ok? && IsPrimitive(n.value)
      ensures r.Ok? && MetaString(n.MetaContent()).value == "" ==> r == ValueText(n.value)
    {
      var meta := MetaString(n.MetaContent());
      if meta.Err? then meta
      else
        assert ValueText(n.value).Ok? ==> "" + ValueText(n.value).value == ValueText(n.value).value;
        Then(Ok(if meta.value != "" then meta.value + " " else ""), ValueText(n.value))
    }

    /** `_list_header` of pretty mode: `[`, with `$size=n:` when the size is asked for. */
    function ListHeader(n: Node): string
      reads n
    {
      "[" + (if includeArraySize then "$size=" + IntToString(|n.elements|) + ":" else "")
    }

    /**
     * The text of a list from its items: compact, all on one line; pretty,
     * the header, the metadata line when there is metadata, one indented
     * line per item and the closing `]`.
     */
    function ListLayout(n: Node, indent: int, meta: string, items: seq<string>): string
      reads n
    {
      if compact then Spaces(indent) + "[" + meta + Join(",", items) + "]"
      else Join("\n", ListLines(n, indent, meta, items))
    }

    /** The lines of a pretty-printed list. */
    function ListLines(n: Node, indent: int, meta: string, items: seq<string>): seq<string>
      reads n
    {
      var pre := Spaces(indent + this.indent);
      [Spaces(indent) + ListHeader(n)] + (if meta != "" then [pre + meta] else []) + seq(|items|, k requires 0 <= k < |items| => pre + items[k]) + [Spaces(indent) + "]"]
    }

    /**
     * A pretty-printed list has a line for its header, one for its metadata
     * when there is any, one per item indented one level deeper, and one
     * for the closing `]`.
     */
    lemma {:induction false} ListLinesShape(n: Node, indent: int, meta: string, items: seq<string>)
      ensures var lines := ListLines(n, indent, meta, items);
        && |lines| == |items| + (if meta != "" then 3 else 2)
        && lines[0] == Spaces(indent) + ListHeader(n) && lines[|lines| - 1] == Spaces(indent) + "]"
        && (meta != "" ==> lines[1] == Spaces(indent + this.indent) + meta)
        && forall k :: 0 <= k < |items| ==> lines[k + |lines| - 1 - |items|] == Spaces(indent + this.indent) + items[k]
    {
      var pre := Spaces(indent + this.indent);
      var head := [Spaces(indent) + ListHeader(n)] + (if meta != "" then [pre + meta] else []);
      var body := seq(|items|, k requires 0 <= k < |items| => pre + items[k]);
      var lines := ListLines(n, indent, meta, items);
      assert lines == head + body + [Spaces(indent) + "]"];
      forall k | 0 <= k < |items| ensures lines[k + |lines| - 1 - |items|] == pre + items[k] {
        assert lines[k + |head|] == body[k];
      }
    }

    /** A list's layout is bracketed after its indentation, in both modes. */
    lemma {:induction false} ListLayoutDelimited(n: Node, indent: int, meta: string, items: seq<string>)
      ensures Bracketed(ListLayout(n, indent, meta, items), Spaces(indent))
    {
      var pad := Spaces(indent);
      if compact {
        var t := pad + ("[" + meta + Join(",", items) + "]");
        assert t[..|pad|] == pad;
        assert pad + "[" + meta + Join(",", items) + "]" == t;
      } else {
        var lines := ListLines(n, indent, meta, items);
        ListLinesShape(n, indent, meta, items);
        JoinEnds("\n", lines);
        var h := ListHeader(n);
        assert lines[0] == pad + h && h[0] == '[';
        assert lines[|lines| - 1] == pad + "]";
      }
    }

    /**
     * What `encode` without a header gives for each kind of node: `fuel`
     * runs out only at zero, and a node that is neither a list, a primitive
     * nor a record renders as `null`.
     */
    lemma {:induction false} DataTextCases(n: Node, indent: int, fuel: nat)
      ensures fuel == 0 ==> DataText(n, indent, fuel) == Err(RecursionError)
      ensures fuel > 0 && n.IsPrimitive() ==> DataText(n, indent, fuel) == PrimitiveNodeText(n)
      ensures fuel > 0 && !n.IsList() && !n.IsPrimitive() && !n.IsRecord() ==> DataText(n, indent, fuel) == Ok("null")
      ensures fuel > 0 && n.IsList() ==> DataText(n, indent, fuel) == ListText(n, startIndent + indent, fuel)
      ensures fuel > 0 && n.IsRecord() ==> DataText(n, indent, fuel) == RecordText(n, startIndent + indent, fuel)
    {
    }

    /**
     * An element's text is its own data text, stripped, with a `<label> `
     * tag in front exactly when its schema is not compatible with the one
     * expected.
     */
    lemma {:induction false} ChildTextTagged(child: Node, expected: Schema?, indent: int, fuel: nat)
      requires fuel > 0
      ensures var r := ChildText(child, expected, indent, fuel);
        var data := DataText(child, indent, fuel - 1);
        && (data.Err? ==> r == data)
        && (data.Ok? && Compatible(child.schema, expected) ==> r == Ok(Strip(data.value)))
        && (data.Ok? && !Compatible(child.schema, expected) ==>
              var name := TypeLabel(child.schema, fuel - 1);
              r == if name.Ok? then Ok("<" + name.value + "> " + Strip(data.value)) else Err(name.error))
    {
    }

    /** The list items succeed exactly when every element does, one item per element. */
    lemma {:induction false} ListItemsOk(els: seq<Node>, from: nat, expected: Schema?, indent: int, fuel: nat)
      requires fuel > 0 && from <= |els|
      ensures ListItems(els, from, expected, indent, fuel).Ok? <==> forall k :: from <= k < |els| ==> ItemOf(els, k, expected, indent, fuel).Ok?
      decreases |els| - from
    {
      if from < |els| {
        ListItemsOk(els, from + 1, expected, indent, fuel);
        var head := ItemOf(els, from, expected, indent, fuel);
        if ListItems(els, from, expected, indent, fuel).Ok? {
          assert head.Ok? && ListItems(els, from + 1, expected, indent, fuel).Ok?;
          forall k | from <= k < |els| ensures ItemOf(els, k, expected, indent, fuel).Ok? {
            if k == from {
              assert ItemOf(els, k, expected, indent, fuel) == head;
            }
          }
        } else if head.Ok? {
          assert !ListItems(els, from + 1, expected, indent, fuel).Ok?;
          var j :| from + 1 <= j < |els| && !ItemOf(els, j, expected, indent, fuel).Ok?;
        } else {
          assert !ItemOf(els, from, expected, indent, fuel).Ok?;
          assert !(forall k :: from <= k < |els| ==> ItemOf(els, k, expected, indent, fuel).Ok?);
        }
      }
    }

    /** One list item per element. */
    lemma {:induction false} ListItemsLength(els: seq<Node>, from: nat, expected: Schema?, indent: int, fuel: nat)
      requires fuel > 0 && from <= |els|
      requires ListItems(els, from, expected, indent, fuel).Ok?
      ensures |ListItems(els, from, expected, indent, fuel).value| == |els| - from
      decreases |els| - from
    {
      if from < |els| {
        ListItemsLength(els, from + 1, expected, indent, fuel);
      }
    }

    /** The list item for the k-th element is that element's text. */
    lemma {:induction false} ListItemsAt(els: seq<Node>, from: nat, expected: Schema?, indent: int, fuel: nat, k: nat)
      requires fuel > 0 && from <= k < |els|
      requires ListItems(els, from, expected, indent, fuel).Ok?
      ensures k - from < |ListItems(els, from, expected, indent, fuel).value|
      ensures Ok(ListItems(els, from, expected, indent, fuel).value[k - from]) == ChildText(els[k], expected, indent, fuel)
      decreases k - from
    {
      var all := ListItems(els, from, expected, indent, fuel);
      var head := ItemOf(els, from, expected, indent, fuel);
      var tail := ListItems(els, from + 1, expected, indent, fuel);
      assert head.Ok? && tail.Ok? && all == Ok([head.value] + tail.value);
      if from < k {
        ListItemsAt(els, from + 1, expected, indent, fuel, k);
        calc {
          Ok(all.value[k - from]);
          Ok(tail.value[k - from - 1]);
          ChildText(els[k], expected, indent, fuel);
        }
      } else {
        calc {
          Ok(all.value[0]);
          head;
          ChildText(els[k], expected, indent, fuel);
        }
      }
    }

    /**
     * The record entries succeed exactly when every child stored under a
     * field's name does, and there is one entry per field.
     */
    lemma {:induction false} RecordPartsOk(fields: OMap<string, Node>, defs: seq<Schema>, from: nat, indent: int, fuel: nat)
      requires fuel > 0 && from <= |defs|
      ensures RecordParts(fields, defs, from, indent, fuel).Ok? <==> forall k :: from <= k < |defs| ==> PartOf(fields, defs[k], indent, fuel).Ok?
      decreases |defs| - from
    {
      if from < |defs| {
        RecordPartsOk(fields, defs, from + 1, indent, fuel);
        var head := PartOf(fields, defs[from], indent, fuel);
        if RecordParts(fields, defs, from, indent, fuel).Ok? {
          assert head.Ok? && RecordParts(fields, defs, from + 1, indent, fuel).Ok?;
          forall k | from <= k < |defs| ensures PartOf(fields, defs[k], indent, fuel).Ok? {
            if k == from {
              assert PartOf(fields, defs[k], indent, fuel) == head;
            }
          }
        } else if head.Ok? {
          assert !RecordParts(fields, defs, from + 1, indent, fuel).Ok?;
          var j :| from + 1 <= j < |defs| && !PartOf(fields, defs[j], indent, fuel).Ok?;
        } else {
          assert !PartOf(fields, defs[from], indent, fuel).Ok?;
          assert !(forall k :: from <= k < |defs| ==> PartOf(fields, defs[k], indent, fuel).Ok?);
        }
      }
    }

    /** One record entry per field. */
    lemma {:induction false} RecordPartsLength(fields: OMap<string, Node>, defs: seq<Schema>, from: nat, indent: int, fuel: nat)
      requires fuel > 0 && from <= |defs|
      requires RecordParts(fields, defs, from, indent, fuel).Ok?
      ensures |RecordParts(fields, defs, from, indent, fuel).value| == |defs| - from
      decreases |defs| - from
    {
      if from < |defs| {
        RecordPartsLength(fields, defs, from + 1, indent, fuel);
      }
    }

    /**
     * The record entry for the k-th field is the text of the child stored
     * under its name, or `null` when the node has none.
     */
    lemma {:induction false} RecordPartsAt(fields: OMap<string, Node>, defs: seq<Schema>, from: nat, indent: int, fuel: nat, k: nat)
      requires fuel > 0 && from <= k < |defs|
      requires RecordParts(fields, defs, from, indent, fuel).Ok?
      ensures k - from < |RecordParts(fields, defs, from, indent, fuel).value|
      ensures Ok(RecordParts(fields, defs, from, indent, fuel).value[k - from]) == PartOf(fields, defs[k], indent, fuel)
      ensures Get(fields, defs[k].name).None? ==> RecordParts(fields, defs, from, indent, fuel).value[k - from] == "null"
      ensures Get(fields, defs[k].name).Some? ==>
        Ok(RecordParts(fields, defs, from, indent, fuel).value[k - from]) == ChildText(Get(fields, defs[k].name).value, defs[k], indent, fuel)
      decreases k - from
    {
      if from < k {
        RecordPartsAt(fields, defs, from + 1, indent, fuel, k);
      }
    }

    /** One record entry, as `_record` computes it for the field `def`. */
    function PartOf(fields: OMap<string, Node>, def: Schema, indent: int, fuel: nat): Result<string, Failure>
      reads *
      requires fuel > 0
      decreases fuel, 1
    {
      match Get(fields, def.name)
      case None => Ok("null")
      case Some(child) => ChildText(child, def, indent, fuel)
    }

    /** The texts of primitive values, each stripped as an entry of a record. */
    function EntryTexts(vals: seq<Value>): (ts: seq<string>)
      requires forall k :: 0 <= k < |vals| ==> IsPrimitive(vals[k])
      ensures |ts| == |vals| && forall k :: 0 <= k < |vals| ==> ts[k] == Strip(ValueText(vals[k]).value)
    {
      if vals == [] then [] else [Strip(ValueText(vals[0]).value)] + EntryTexts(vals[1..])
    }

    /**
     * The entry for a primitive field whose child, stored under the field's
     * name, has that field as its schema and no metadata: the value's text,
     * stripped and untagged.
     */
    lemma {:induction false} FlatEntry(fields: OMap<string, Node>, def: Schema, child: Node, indent: int, fuel: nat)
      requires fuel > 1 && Get(fields, def.name) == Some(child) && child.schema == def && def.kind == Primitive
      requires child.MetaContent() == EmptyMeta && IsPrimitive(child.value)
      ensures PartOf(fields, def, indent, fuel) == Ok(Strip(ValueText(child.value).value))
    {
      MetaStringOfEmpty();
      ChildTextTagged(child, def, indent, fuel);
      DataTextCases(child, indent, fuel - 1);
      CompatibleWithItself(def);
      assert child.IsPrimitive();
    }

    /** The entries of such fields, in field order. */
    lemma {:induction false} FlatParts(fields: OMap<string, Node>, defs: seq<Schema>, children: seq<Node>, vals: seq<Value>, indent: int, fuel: nat)
      requires fuel > 1 && |children| == |vals| == |defs|
      requires forall k :: 0 <= k < |defs| ==>
        && Get(fields, defs[k].name) == Some(children[k]) && children[k].schema == defs[k] && defs[k].kind == Primitive
        && children[k].MetaContent() == EmptyMeta && children[k].value == vals[k] && IsPrimitive(vals[k])
      ensures RecordParts(fields, defs, 0, indent, fuel) == Ok(EntryTexts(vals))
    {
      forall k | 0 <= k < |defs| ensures PartOf(fields, defs[k], indent, fuel) == Ok(EntryTexts(vals)[k]) {
        FlatEntry(fields, defs[k], children[k], indent, fuel);
      }
      RecordPartsOk(fields, defs, 0, indent, fuel);
      var parts := RecordParts(fields, defs, 0, indent, fuel);
      RecordPartsLength(fields, defs, 0, indent, fuel);
      forall k | 0 <= k < |defs| ensures parts.value[k] == EntryTexts(vals)[k] {
        RecordPartsAt(fields, defs, 0, indent, fuel, k);
      }
      assert parts.value == EntryTexts(vals);
    }

    /**
     * A record without metadata whose fields are primitives, each holding
     * (under the field's name) a child without metadata whose schema is
     * that field, renders the children's values in field order between
     * parentheses, with no type tags.
     */
    lemma {:induction false} FlatRecordData(n: Node, children: seq<Node>, vals: seq<Value>, indent: int, fuel: nat)
      requires fuel > 1 && n.IsRecord() && n.MetaContent() == EmptyMeta
      requires |children| == |vals| == |n.schema.fieldsList| > 0
      requires forall k :: 0 <= k < |children| ==>
        && Get(n.fields, n.schema.fieldsList[k].name) == Some(children[k])
        && children[k].schema == n.schema.fieldsList[k] && n.schema.fieldsList[k].kind == Primitive
        && children[k].MetaContent() == EmptyMeta && children[k].value == vals[k] && IsPrimitive(vals[k])
      ensures DataText(n, indent, fuel) == Ok("(" + Join(if compact then "," else ", ", EntryTexts(vals)) + ")")
    {
      var sep := if compact then "," else ", ";
      var body := Join(sep, EntryTexts(vals));
      MetaStringOfEmpty();
      DataTextCases(n, indent, fuel);
      FlatParts(n.fields, n.schema.fieldsList, children, vals, startIndent + indent - startIndent, fuel);
      assert RecordText(n, startIndent + indent, fuel) == Ok("(" + "" + body + ")");
      assert "(" + "" + body == "(" + body;
    }

    /** The data text of a record node is parenthesised. */
    lemma {:induction false} RecordDelimited(n: Node, indent: int, fuel: nat)
      requires n.IsRecord() && DataText(n, indent, fuel).Ok?
      ensures var t := DataText(n, indent, fuel).value; |t| >= 2 && t[0] == '(' && t[|t| - 1] == ')'
    {
      assert fuel > 0;
      assert DataText(n, indent, fuel) == RecordText(n, startIndent + indent, fuel);
    }

    /** A list's text is its layout, bracketed after its indentation. */
    lemma {:induction false} ListTextDelimited(n: Node, indent: int, fuel: nat)
      requires fuel > 0 && n.IsList() && ListText(n, indent, fuel).Ok?
      ensures Bracketed(ListText(n, indent, fuel).value, Spaces(indent))
    {
      var meta := MetaWrapped(n.MetaContent()).value;
      var items := ListItems(n.elements, 0, n.schema.element, if compact then 0 else indent + this.indent - startIndent, fuel).value;
      assert ListText(n, indent, fuel) == Ok(ListLayout(n, indent, meta, items));
      ListLayoutDelimited(n, indent, meta, items);
    }

    /** The data text of a list node is bracketed after the indentation `encode` gives it. */
    lemma {:induction false} ListDelimited(n: Node, indent: int, fuel: nat)
      requires n.IsList() && DataText(n, indent, fuel).Ok?
      ensures Bracketed(DataText(n, indent, fuel).value, Spaces(startIndent + indent))
    {
      DataTextCases(n, indent, fuel);
      ListTextDelimited(n, startIndent + indent, fuel);
    }

    // ----------------------------------------------------------------
    // Schema header
    // ----------------------------------------------------------------

    /** The `@TypeName` prefix: a record with a type name of its own. */
    function SchemaPrefix(s: Schema): (p: string)
      reads s
      ensures p != "" <==> s.typeName != "" && s.kind == Record && !s.IsAny()
      ensures p != "" ==> p == "@" + s.typeName
    {
      if s.typeName != "" && s.kind == Record && !s.IsAny() then "@" + s.typeName else ""
    }

    /**
     * One field of `_encode_schema_fields`: its inline metadata and a space,
     * its name, and `:type` when the type text is not empty and the field
     * is a structure, or a primitive with a type name other than `any` while
     * types are included.
     */
    function FieldPart(name: string, shape: Shape, meta: string, fieldType: string): (r: string)
      ensures ShowsType(shape, fieldType) ==> r == (if meta != "" then meta + " " else "") + name + ":" + fieldType
      ensures !ShowsType(shape, fieldType) ==> r == (if meta != "" then meta + " " else "") + name
    {
      var head := if meta != "" then meta + " " else "";
      if ShowsType(shape, fieldType) then head + name + ":" + fieldType else head + name
    }

    predicate ShowsType(shape: Shape, fieldType: string)
    {
      fieldType != "" && (shape.kind != Primitive || (includeType && shape.typeName != "any"))
    }

    /** Every field is a primitive: rendering them changes no schema. */
    static predicate FlatFields(fs: seq<Schema>)
      reads fs
    {
      forall k :: 0 <= k < |fs| ==> fs[k].kind == Primitive
    }

    /**
     * What `_encode_schema_fields` renders for primitive fields without
     * metadata: each field's name and, where shown, its type name, stripped.
     */
    function BareFieldsText(fs: seq<Schema>): string
      reads fs
    {
      Join("," + Pad(), FieldParts(fs, Blanks(|fs|), FieldTypes(fs)))
    }

    /** None of the schemas carries comments, attributes, tags or `!required`. */
    static predicate Bare(fs: seq<Schema>)
      reads fs
    {
      forall k :: 0 <= k < |fs| ==> fs[k].MetaContent() == EmptyMeta
    }

    /** A record schema with primitive fields, and no metadata on it or on them. */
    static predicate BareRecord(s: Schema?)
      reads s, if s != null then set f | f in s.fieldsList else {}
    {
      && s != null && s.kind == Record && s.fieldsList != []
      && FlatFields(s.fieldsList) && Bare(s.fieldsList) && s.MetaContent() == EmptyMeta
    }

    /** The header `encode_schema` writes for such a record at indentation `base`. */
    function BareRecordHeader(s: Schema, base: int): string
      reads s, s.fieldsList
    {
      Spaces(base) + SchemaPrefix(s) + "<" + Pad() + BareFieldsText(s.fieldsList) + Pad() + ">"
    }

    /** A schema whose header reads only the schema itself: a primitive, `any`, `dict`, or a record without fields. */
    static predicate SchemaOnlyHeader(s: Schema)
      reads s
    {
      s.kind == Primitive || s.kind == Any || s.kind == SchemaKind.Dict || (s.kind == Record && s.fieldsList == [])
    }

    /** The header `encode_schema` writes for a primitive schema at indentation `base`: its inline metadata, then its type name. */
    function PrimitiveHeader(s: Schema, base: int): Result<string, Failure>
      reads s
    {
      Then(Ok(Spaces(base)), Then(Spaced(MetaString(s.MetaContent())), Ok(s.typeName)))
    }

    /** The header for a schema of kind `any` or `dict`: `<meta any>`. */
    function AnyHeader(s: Schema, base: int): Result<string, Failure>
      reads s
    {
      Then(Ok(Spaces(base) + "<"), Then(MetaWrapped(s.MetaContent()), Ok("any>")))
    }

    /**
     * The header for a record without fields: nothing when it is generic,
     * unnamed and without metadata (so `encode` writes `<>`), otherwise
     * `@Name<meta any>`.
     */
    function FieldlessHeader(s: Schema, base: int): Result<string, Failure>
      reads s
    {
      var m := MetaWrapped(s.MetaContent());
      if m.Err? then m
      else if SchemaPrefix(s) == "" && m.value == "" && s.IsAny() then Ok("")
      else Ok(Spaces(base) + SchemaPrefix(s) + "<" + Pad() + m.value + "any" + Pad() + ">")
    }

    /**
     * A generic record without fields, type name or metadata has an empty
     * schema text, which `encode` writes as `<>` in compact mode.
     */
    lemma GenericRecordHeader(s: Schema, base: int)
      requires s.kind == Record && s.IsAny() && s.MetaContent() == EmptyMeta
      ensures FieldlessHeader(s, base) == Ok("")
      ensures compact ==> HeaderText("", base) == "<>"
    {
      MetaStringOfEmpty();
      assert Strip("") == "";
    }

    /**
     * The header `h` a node with schema `s` gets at indentation `base`
     * when its schema needs no field texts: `PrimitiveHeader` for a
     * primitive, `AnyHeader` for `any` and `dict`, `FieldlessHeader` for a
     * record without fields.
     */
    predicate ShapedHeader(s: Schema?, fuel: nat, base: int, h: Option<Result<string, Failure>>)
      reads s
    {
      h.Some? && fuel > 0 && s != null ==>
        && (s.kind == Primitive ==> h == Some(PrimitiveHeader(s, base)))
        && ((s.kind == Any || s.kind == SchemaKind.Dict) ==> h == Some(AnyHeader(s, base)))
        && (s.kind == Record && s.fieldsList == [] ==> h == Some(FieldlessHeader(s, base)))
    }

    /** `n` empty strings. */
    static function Blanks(n: nat): (b: seq<string>)
      ensures |b| == n && forall k :: 0 <= k < n ==> b[k] == ""
    {
      if n == 0 then [] else Blanks(n - 1) + [""]
    }

    /** Without metadata the inline metadata string is empty. */
    lemma MetaStringOfEmpty()
      ensures MetaString(EmptyMeta) == Ok("") && MetaWrapped(EmptyMeta) == Ok("")
    {
    }

    function FieldTypes(fs: seq<Schema>): (ts: seq<string>)
      reads fs
      ensures |ts| == |fs| && forall k :: 0 <= k < |fs| ==> ts[k] == Strip(fs[k].typeName)
    {
      seq(|fs|, k requires 0 <= k < |fs| reads fs => Strip(fs[k].typeName))
    }

    function FieldParts(fs: seq<Schema>, metas: seq<string>, types: seq<string>): (r: seq<string>)
      reads fs
      requires |metas| == |types| == |fs|
      ensures |r| == |fs| && forall k :: 0 <= k < |fs| ==> r[k] == FieldPart(fs[k].name, fs[k].Shape(), metas[k], types[k])
    {
      seq(|fs|, k requires 0 <= k < |fs| reads fs => FieldPart(fs[k].name, fs[k].Shape(), metas[k], types[k]))
    }

    /**
     * `encode`'s use of the header text: stripped, wrapped in `<...>`
     * unless it opens with `<` or `@` (so an empty header becomes `<>`),
     * and followed by a newline and the indentation outside compact mode.
     */
    function HeaderText(schemaText: string, baseIndent: int): (h: string)
      ensures |h| > 0 && (h[0] == '<' || h[0] == '@')
      ensures compact && (Strip(schemaText) == "" || (Strip(schemaText)[0] != '<' && Strip(schemaText)[0] != '@')) ==> h == "<" + Strip(schemaText) + ">"
      ensures compact && Strip(schemaText) != "" && (Strip(schemaText)[0] == '<' || Strip(schemaText)[0] == '@') ==> h == Strip(schemaText)
      ensures !compact ==> h == HeaderText'(schemaText) + "\n" + Spaces(baseIndent)
    {
      var t := HeaderText'(schemaText);
      if compact then t else t + "\n" + Spaces(baseIndent)
    }

    function HeaderText'(schemaText: string): (t: string)
      ensures |t| > 0 && (t[0] == '<' || t[0] == '@')
    {
      var s := Strip(schemaText);
      if !StartsWith(s, "<") && !StartsWith(s, "@") then "<" + s + ">" else s
    }

    /** `encode`'s result: the header (when there is one) before the data; the first failure wins. */
    function Assemble(header: Option<Result<string, Failure>>, baseIndent: int, data: Result<string, Failure>): (r: Result<string, Failure>)
      ensures header.None? ==> r == data
      ensures header.Some? && header.value.Err? ==> r == header.value
      ensures header.Some? && header.value.Ok? ==> r == Then(Ok(HeaderText(header.value.value, baseIndent)), data)
    {
      match header
      case None => data
      case Some(h) => if h.Err? then h else Then(Ok(HeaderText(h.value, baseIndent)), data)
    }

    /**
     * `_schema.apply_meta(schema.element)` then `schema.element.clear_meta()`:
     * the list absorbs its element's metadata (a set `required` carries
     * over) and the element's is cleared.  When the element is the list
     * itself, the clearing wins.
     */
    method AbsorbElementMeta(schema: Schema)
      requires schema.element != null
      modifies schema`comments, schema`attr, schema`tags, schema`required,
               schema.element`comments, schema.element`attr, schema.element`tags, schema.element`required
      ensures schema.element.MetaContent() == EmptyMeta
      ensures schema.element != schema ==>
        schema.MetaContent() == Absorbed(old(schema.MetaContent()), old(schema.element.MetaContent()))
    {
      var element := schema.element;
      schema.ApplyMeta(element.MetaContent());
      element.ClearMeta();
    }

    /** `Schema.apply_meta` with another schema's metadata. */
    static function Absorbed(into: MetaData, from: MetaData): (r: MetaData)
      ensures r.comments == into.comments + from.comments && r.tags == into.tags + from.tags
      ensures r.attr == OrderedMap.Update(into.attr, from.attr)
      ensures r.required == (into.required || from.required)
    {
      ApplyCommon(into, from).(required := into.required || from.required)
    }

    /**
     * `encode_schema`.  A primitive is its inline metadata and type name.  A
     * list first absorbs its element's metadata; a list of records renders
     * `<[meta fields]>`, any other list `[meta type]`.  A record renders
     * `@Name<meta fields>`, `<meta any>` without fields, or nothing at all
     * when it is generic and bare.  Anything else renders `<meta any>`.
     * `meta` and `inner` return the metadata text and the text of the
     * nested fields or element used.
     */
    method EncodeSchema(schema: Schema?, indent: int, withMeta: bool, fuel: nat, ghost S: set<Schema>)
      returns (r: Result<string, Failure>, ghost meta: string, ghost inner: string)
      requires ReachIn(schema, fuel, S)
      modifies S`comments, S`attr, S`tags, S`required
      decreases fuel, 3
      ensures schema == null ==> r == Ok("") && unchanged(S)
      ensures schema != null && fuel == 0 ==> r == Err(RecursionError) && unchanged(S)
      ensures schema != null && fuel > 0 && schema.kind == Primitive ==>
        unchanged(S) &&
        r == Then(Ok(Spaces(indent)), Then(Spaced(if withMeta then MetaString(schema.MetaContent()) else Ok("")), Ok(schema.typeName)))
      ensures schema != null && fuel > 0 && schema.kind == SchemaKind.List && schema.element == null ==> r.Err?
      ensures r.Ok? && schema != null && fuel > 0 && schema.kind == SchemaKind.List ==>
        && schema.element != null
        && (withMeta && schema.element != schema ==>
              MetaWrapped(Absorbed(old(schema.MetaContent()), old(schema.element.MetaContent()))) == Ok(meta))
        && (!withMeta ==> meta == "")
        && (schema.element.kind == Record ==>
              r.value == Spaces(indent) + "<" + Pad() + "[" + meta + inner + Pad() + "]" + Pad() + ">")
        && (schema.element.kind == Primitive ==> inner == schema.element.typeName)
        && (schema.element.kind != Record ==> r.value == Spaces(indent) + "[" + meta + Strip(inner) + "]")
      ensures r.Ok? && schema != null && fuel > 0 && schema.kind == Record ==>
        && (withMeta ==> Ok(meta) == MetaWrapped(old(schema.MetaContent())))
        && (!withMeta ==> meta == "")
        && (schema.fieldsList == [] && SchemaPrefix(schema) == "" && meta == "" && schema.IsAny() ==> r.value == "")
        && (schema.fieldsList == [] && !(SchemaPrefix(schema) == "" && meta == "" && schema.IsAny()) ==>
              r.value == Spaces(indent) + SchemaPrefix(schema) + "<" + Pad() + meta + "any" + Pad() + ">")
        && (schema.fieldsList != [] ==> r.value == Spaces(indent) + SchemaPrefix(schema) + "<" + Pad() + meta + inner + Pad() + ">")
      ensures schema != null && fuel > 1 && schema.kind == Record && FlatFields(schema.fieldsList) ==>
        unchanged(S) && (Bare(schema.fieldsList) && schema.fieldsList != [] && (withMeta ==> MetaWrapped(schema.MetaContent()).Ok?) ==>
          r.Ok? && inner == BareFieldsText(schema.fieldsList))
      ensures schema != null && fuel > 0 && (schema.kind == Any || schema.kind == SchemaKind.Dict) ==>
        unchanged(S) && r == Then(Ok(Spaces(indent) + "<"), Then(if withMeta then MetaWrapped(schema.MetaContent()) else Ok(""), Ok("any>")))
      ensures schema != null && fuel > 0 && withMeta && old(MetaWrapped(schema.MetaContent())).Err? ==>
        unchanged(S) && r == MetaWrapped(schema.MetaContent())
      ensures schema != null && fuel > 0 && SchemaOnlyHeader(schema) ==> unchanged(S)
      ensures schema != null && fuel > 0 && withMeta && schema.kind == Primitive ==> r == PrimitiveHeader(schema, indent)
      ensures schema != null && fuel > 0 && withMeta && (schema.kind == Any || schema.kind == SchemaKind.Dict) ==> r == AnyHeader(schema, indent)
      ensures schema != null && fuel > 0 && withMeta && schema.kind == Record && schema.fieldsList == [] ==> r == FieldlessHeader(schema, indent)
    {
      inner := "";
      meta := "";
      if schema == null {
        return Ok(""), meta, inner;
      }
      if fuel == 0 {
        return Err(RecursionError), meta, inner;
      }
      var ind := Spaces(indent);
      var prefix := SchemaPrefix(schema);
      var wrapped := if withMeta then MetaWrapped(schema.MetaContent()) else Ok("");
      if wrapped.Err? {
        return wrapped, meta, inner;
      }
      if schema.kind == Primitive {
        var inline := if withMeta then MetaString(schema.MetaContent()) else Ok("");
        return Then(Ok(ind), Then(Spaced(inline), Ok(schema.typeName))), meta, inner;
      }
      if schema.kind == SchemaKind.List {
        r, meta, inner := ListSchema(schema, ind, withMeta, fuel, S);
        return;
      }
      meta := wrapped.value;
      if schema.kind == Record {
        r, inner := RecordSchema(schema, ind, prefix, wrapped.value, fuel, S);
        return;
      }
      r := Then(Ok(ind + "<"), Then(wrapped, Ok("any>")));
    }

    /** Inline metadata followed by a space, or nothing. */
    static function Spaced(meta: Result<string, Failure>): (r: Result<string, Failure>)
      ensures meta.Err? ==> r == meta
      ensures meta.Ok? ==> r == Ok(if meta.value != "" then meta.value + " " else "")
    {
      if meta.Err? then meta else Ok(if meta.value != "" then meta.value + " " else "")
    }

    /** The list branch of `encode_schema`. */
    method ListSchema(schema: Schema, ind: string, withMeta: bool, fuel: nat, ghost S: set<Schema>)
      returns (r: Result<string, Failure>, ghost meta: string, ghost inner: string)
      requires fuel > 0 && schema.kind == SchemaKind.List && ReachIn(schema, fuel, S)
      modifies S`comments, S`attr, S`tags, S`required
      decreases fuel, 2
      ensures schema.element == null ==> r == Err(AttributeError)
      ensures r.Ok? ==>
        && schema.element != null
        && (withMeta && schema.element != schema ==>
              MetaWrapped(Absorbed(old(schema.MetaContent()), old(schema.element.MetaContent()))) == Ok(meta))
        && (!withMeta ==> meta == "")
        && (schema.element.kind == Record ==> r.value == ind + "<" + Pad() + "[" + meta + inner + Pad() + "]" + Pad() + ">")
        && (schema.element.kind == Primitive ==> inner == schema.element.typeName)
        && (schema.element.kind != Record ==> r.value == ind + "[" + meta + Strip(inner) + "]")
    {
      meta, inner := "", "";
      var element := schema.element;
      if element == null {
        return Err(AttributeError), meta, inner;
      }
      AbsorbElementMeta(schema);
      var listMeta := if withMeta then MetaWrapped(schema.MetaContent()) else Ok("");
      if listMeta.Err? {
        return listMeta, meta, inner;
      }
      meta := listMeta.value;
      r, inner := ElementSchema(element, ind, listMeta.value, fuel, S);
    }

    /** The element part of the list branch of `encode_schema`, given the list's wrapped metadata. */
    method ElementSchema(element: Schema, ind: string, meta: string, fuel: nat, ghost S: set<Schema>)
      returns (r: Result<string, Failure>, ghost inner: string)
      requires fuel > 0 && ReachIn(element, fuel - 1, S)
      modifies S`comments, S`attr, S`tags, S`required
      decreases fuel, 1
      ensures r.Ok? && element.kind == Record ==> r.value == ind + "<" + Pad() + "[" + meta + inner + Pad() + "]" + Pad() + ">"
      ensures r.Ok? && element.kind == Primitive ==> inner == element.typeName
      ensures r.Ok? && element.kind != Record ==> r.value == ind + "[" + meta + Strip(inner) + "]"
    {
      inner := "";
      if element.kind == Record {
        var fields;
        ghost var metas, types;
        fields, metas, types := EncodeSchemaFields(element, fuel - 1, S);
        if fields.Err? {
          return fields, inner;
        }
        inner := fields.value;
        return Ok(ind + "<" + Pad() + "[" + meta + fields.value + Pad() + "]" + Pad() + ">"), inner;
      }
      var sub;
      ghost var m, i;
      sub, m, i := EncodeSchema(element, 0, false, fuel - 1, S);
      if sub.Err? {
        return sub, inner;
      }
      inner := sub.value;
      r := Ok(ind + "[" + meta + Strip(sub.value) + "]");
    }

    /** The record branch of `encode_schema`, given its prefix and wrapped metadata. */
    method RecordSchema(schema: Schema, ind: string, prefix: string, meta: string, fuel: nat, ghost S: set<Schema>)
      returns (r: Result<string, Failure>, ghost inner: string)
      requires fuel > 0 && schema.kind == Record && ReachIn(schema, fuel, S)
      modifies S`comments, S`attr, S`tags, S`required
      decreases fuel, 2
      ensures r.Ok? && schema.fieldsList == [] ==>
        r.value == if prefix == "" && meta == "" && schema.IsAny() then "" else ind + prefix + "<" + Pad() + meta + "any" + Pad() + ">"
      ensures r.Ok? && schema.fieldsList != [] ==> r.value == ind + prefix + "<" + Pad() + meta + inner + Pad() + ">"
      ensures schema.fieldsList == [] ==> r.Ok? && unchanged(S)
      ensures fuel > 1 && FlatFields(schema.fieldsList) ==>
        unchanged(S) && (Bare(schema.fieldsList) && schema.fieldsList != [] ==> r.Ok? && inner == BareFieldsText(schema.fieldsList))
    {
      inner := "";
      if schema.fieldsList == [] {
        if prefix == "" && meta == "" && schema.IsAny() {
          return Ok(""), inner;
        }
        return Ok(ind + prefix + "<" + Pad() + meta + "any" + Pad() + ">"), inner;
      }
      var fields;
      ghost var metas, types;
      fields, metas, types := EncodeSchemaFields(schema, fuel, S);
      if fields.Err? {
        return fields, inner;
      }
      inner := fields.value;
      r := Ok(ind + prefix + "<" + Pad() + meta + fields.value + Pad() + ">");
      if fuel > 1 && FlatFields(schema.fieldsList) && Bare(schema.fieldsList) {
        assert metas == Blanks(|metas|) && types == FieldTypes(schema.fieldsList);
      }
    }

    /**
     * `_encode_schema_fields`: one part per field, in field order, joined by
     * `,` and the padding.  `metas` and `types` return each field's inline
     * metadata and type text as they were read.
     */
    method EncodeSchemaFields(schema: Schema, fuel: nat, ghost S: set<Schema>)
      returns (r: Result<string, Failure>, ghost metas: seq<string>, ghost types: seq<string>)
      requires ReachIn(schema, fuel, S)
      modifies S`comments, S`attr, S`tags, S`required
      decreases fuel, 1
      ensures r.Ok? ==> |metas| == |types| == |schema.fieldsList|
      ensures r.Ok? ==> r.value == Join("," + Pad(), FieldParts(schema.fieldsList, metas, types))
      ensures fuel > 1 && FlatFields(schema.fieldsList) ==>
        && unchanged(S)
        && (r.Ok? ==> forall k :: 0 <= k < |types| ==> types[k] == Strip(schema.fieldsList[k].typeName))
        && (Bare(schema.fieldsList) ==> r.Ok? && forall k :: 0 <= k < |metas| ==> metas[k] == "")
    {
      metas, types := [], [];
      var fs := schema.fieldsList;
      if fs != [] && fuel == 0 {
        return Err(RecursionError), metas, types;
      }
      var ms, ts := [], [];
      ghost var flat := fuel > 1 && FlatFields(fs);
      ghost var bare := flat && Bare(fs);
      assert forall j :: 0 <= j < |fs| ==> fs[j] in S;
      var k := 0;
      while k < |fs|
        invariant 0 <= k <= |fs| && fs == schema.fieldsList
        invariant |ms| == |ts| == k
        invariant flat ==> unchanged(S)
        invariant flat ==> forall j :: 0 <= j < k ==> ts[j] == Strip(fs[j].typeName)
        invariant bare ==> forall j :: 0 <= j < k ==> ms[j] == ""
      {
        var field := fs[k];
        assert flat ==> field.kind == Primitive;
        assert bare ==> field.MetaContent() == EmptyMeta;
        var m, sub := FieldTexts(field, fuel - 1, S);
        if m.Err? {
          return Err(m.error), metas, types;
        }
        if sub.Err? {
          return Err(sub.error), metas, types;
        }
        ms, ts := ms + [m.value], ts + [Strip(sub.value)];
        k := k + 1;
      }
      metas, types := ms, ts;
      r := Ok(Join("," + Pad(), FieldParts(fs, ms, ts)));
    }

    /**
     * One pass of the loop of `_encode_schema_fields`: the field's inline
     * metadata, then (unless that failed) its schema at indentation 0
     * without metadata.  A primitive field is rendered as its type name
     * and nothing changes.
     */
    method FieldTexts(field: Schema, fuel: nat, ghost S: set<Schema>) returns (m: Result<string, Failure>, sub: Result<string, Failure>)
      requires ReachIn(field, fuel, S)
      modifies S`comments, S`attr, S`tags, S`required
      decreases fuel, 5
      ensures m == old(MetaString(field.MetaContent()))
      ensures old(field.MetaContent()) == EmptyMeta ==> m == Ok("")
      ensures m.Err? ==> unchanged(S)
      ensures fuel > 0 && field.kind == Primitive ==> unchanged(S) && (m.Ok? ==> sub == Ok(field.typeName))
    {
      m := MetaString(field.MetaContent());
      sub := Ok("");
      if m.Err? {
        return;
      }
      sub := FieldType(field, fuel, S);
    }

    /** A field's schema at indentation 0 without metadata; for a primitive, its type name, and nothing changes. */
    method FieldType(field: Schema, fuel: nat, ghost S: set<Schema>) returns (sub: Result<string, Failure>)
      requires ReachIn(field, fuel, S)
      modifies S`comments, S`attr, S`tags, S`required
      decreases fuel, 4
      ensures fuel > 0 && field.kind == Primitive ==> unchanged(S) && sub == Ok(field.typeName)
    {
      ghost var sm, si;
      ghost var primitive := fuel > 0 && field.kind == Primitive;
      sub, sm, si := EncodeSchema(field, 0, false, fuel, S);
      if primitive {
        assert SchemaOnlyHeader(field);
        assert Spaces(0) + "" + field.typeName == field.typeName;
      }
    }

    // ----------------------------------------------------------------
    // Entry
    // ----------------------------------------------------------------

    /**
     * The schema header of `encode`: present when both the argument and the
     * configuration ask for one and the node has a schema, and then the
     * result of `encode_schema` at the node's indentation, with metadata.
     */
    method Header(node: Node, base: int, withSchema: bool, fuel: nat, ghost S: set<Schema>)
      returns (h: Option<Result<string, Failure>>)
      requires ReachIn(node.schema, fuel, S)
      modifies S`comments, S`attr, S`tags, S`required
      ensures h.Some? <==> withSchema && node.schema != null && includeSchema
      ensures h.None? ==> unchanged(S)
      ensures h.Some? && fuel > 1 && old(BareRecord(node.schema)) ==>
        unchanged(S) && h == Some(Ok(old(BareRecordHeader(node.schema, base))))
      ensures h.Some? && fuel > 0 && node.schema != null && SchemaOnlyHeader(node.schema) ==> unchanged(S)
      ensures ShapedHeader(node.schema, fuel, base, h)
    {
      if !(withSchema && node.schema != null && includeSchema) {
        return None;
      }
      var text;
      ghost var m, i;
      ghost var bare := fuel > 1 && BareRecord(node.schema);
      ghost var pre := if bare then BareRecordHeader(node.schema, base) else "";
      if bare {
        MetaStringOfEmpty();
      }
      text, m, i := EncodeSchema(node.schema, base, true, fuel, S);
      if bare {
        assert m == "" && text.Ok?;
        assert text.value == Spaces(base) + SchemaPrefix(node.schema) + "<" + Pad() + "" + i + Pad() + ">";
        assert Spaces(base) + SchemaPrefix(node.schema) + "<" + Pad() + "" == Spaces(base) + SchemaPrefix(node.schema) + "<" + Pad();
        assert text.value == pre;
      }
      h := Some(text);
    }

    /**
     * `encode(node, indent, include_schema)`: the schema header, if any,
     * then the data as it reads after the header has been rendered.
     * `header` returns the header that was used.
     */
    method Encode(node: Node, indent: int, withSchema: bool, fuel: nat, ghost S: set<Schema>)
      returns (r: Result<string, Failure>, ghost header: Option<Result<string, Failure>>)
      requires ReachIn(node.schema, fuel, S)
      modifies S`comments, S`attr, S`tags, S`required
      ensures header.Some? <==> withSchema && node.schema != null && includeSchema
      ensures header.None? ==> unchanged(S)
      ensures header.Some? && fuel > 1 && old(BareRecord(node.schema)) ==>
        unchanged(S) && header == Some(Ok(old(BareRecordHeader(node.schema, startIndent + indent))))
      ensures header.Some? && fuel > 0 && node.schema != null && SchemaOnlyHeader(node.schema) ==> unchanged(S)
      ensures ShapedHeader(node.schema, fuel, startIndent + indent, header)
      ensures fuel > 1 && old(BareRecord(node.schema)) ==>
        DataText(node, indent, fuel) == old(DataText(node, indent, fuel)) &&
        r == Assemble(header, startIndent + indent, old(DataText(node, indent, fuel)))
      ensures r == Assemble(header, startIndent + indent, DataText(node, indent, fuel))
    {
      var base := startIndent + indent;
      ghost var bare := fuel > 1 && BareRecord(node.schema);
      ghost var data0 := DataText(node, indent, fuel);
      var h := Header(node, base, withSchema, fuel, S);
      header := h;
      if bare {
        assert unchanged(S);
        assert DataText(node, indent, fuel) == data0;
      }
      r := Assemble(h, base, DataText(node, indent, fuel));
    }
  }
}
