/**
 * `encode`, the entry point of the encoder: raw Python data is first
 * turned into a node tree by `parse`, a node is used as it is; the
 * configuration given is laid over `DEFAULT_CONFIG`; and the result is
 * what `Encoder(cfg).encode(node)` writes.
 */
module EncodeEntry {
  import opened Wrappers
  import opened Text
  import opened Values
  import opened OrderedMap
  import opened Meta
  import opened Schemas
  import opened Nodes
  import opened Parse
  import opened Encoding

  /** `DEFAULT_CONFIG`, in its order. */
  const DefaultConfig: Config := [
    ("indent", Number(2)),
    ("start_indent", Number(0)),
    ("compact", Flag(false)),
    ("remove_new_lines", Flag(false)),
    ("colorize", Flag(false)),
    ("include_comments", Flag(true)),
    ("include_array_size", Flag(false)),
    ("include_schema", Flag(true)),
    ("include_type", Flag(true)),
    ("prompt_output", Flag(false))
  ]

  lemma DefaultKeys()
    ensures Keys(DefaultConfig) == ["indent", "start_indent", "compact", "remove_new_lines", "colorize",
      "include_comments", "include_array_size", "include_schema", "include_type", "prompt_output"]
    ensures Distinct(Keys(DefaultConfig))
  {
  }

  /** Two keys the encoder reads that `DEFAULT_CONFIG` does not hold. */
  lemma DefaultAbsent()
    ensures "escape_new_lines" !in Keys(DefaultConfig) && "include_meta" !in Keys(DefaultConfig)
  {
    DefaultKeys();
    var ks := Keys(DefaultConfig);
    assert forall j :: 0 <= j < |ks| ==> ks[j][0] != 'e';
    assert forall j :: 0 <= j < |ks| ==> |ks[j]| != 12 || ks[j][8] != 'm';
  }

  /** What `DEFAULT_CONFIG` holds under each key the encoder reads. */
  lemma DefaultSettings()
    ensures Get(DefaultConfig, "indent") == Some(Number(2)) && Get(DefaultConfig, "start_indent") == Some(Number(0))
    ensures Get(DefaultConfig, "compact") == Some(Flag(false)) && Get(DefaultConfig, "colorize") == Some(Flag(false))
    ensures Get(DefaultConfig, "include_comments") == Some(Flag(true))
    ensures Get(DefaultConfig, "include_array_size") == Some(Flag(false))
    ensures Get(DefaultConfig, "include_schema") == Some(Flag(true)) && Get(DefaultConfig, "include_type") == Some(Flag(true))
    ensures Get(DefaultConfig, "prompt_output") == Some(Flag(false))
    ensures Get(DefaultConfig, "escape_new_lines") == None && Get(DefaultConfig, "include_meta") == None
  {
    DefaultKeys();
    DefaultAbsent();
    GetAt(DefaultConfig, 0);
    GetAt(DefaultConfig, 1);
    GetAt(DefaultConfig, 2);
    GetAt(DefaultConfig, 4);
    GetAt(DefaultConfig, 5);
    GetAt(DefaultConfig, 6);
    GetAt(DefaultConfig, 7);
    GetAt(DefaultConfig, 8);
    GetAt(DefaultConfig, 9);
  }

  /**
   * `cfg = DEFAULT_CONFIG.copy()`, then `cfg.update(config)` when `config`
   * is not empty: the default keys keep their order and the new keys follow
   * in the order `config` lists them.
   */
  function Merged(config: Config): Config
  {
    if |config| == 0 then DefaultConfig else Update(DefaultConfig, config)
  }

  /**
   * The default keys keep their order and the new keys follow in the
   * order `config` first lists them, so no key is held twice.
   */
  lemma MergedKeys(config: Config)
    ensures Keys(Merged(config)) == Keys(DefaultConfig) + NewKeys(Keys(config), Keys(DefaultConfig))
    ensures Distinct(Keys(Merged(config)))
  {
    DefaultKeys();
    UpdateKeys(DefaultConfig, config);
    NewKeysDistinct(Keys(config), Keys(DefaultConfig));
  }

  /** A key of `config` reads as `config` has it, any other key as the default has it. */
  lemma MergedGet(config: Config, key: string)
    requires Distinct(Keys(config))
    ensures Get(Merged(config), key) == if key in Keys(config) then Get(config, key) else Get(DefaultConfig, key)
  {
    if |config| > 0 {
      UpdateGet(DefaultConfig, config, key);
    }
  }

  /** A flag whose default in `DEFAULT_CONFIG` is the encoder's own default (or absent) reads the same after merging. */
  lemma MergedFlag(config: Config, key: string, d: bool)
    requires Distinct(Keys(config))
    requires Get(DefaultConfig, key) == None || Get(DefaultConfig, key) == Some(Flag(d))
    ensures FlagOf(Merged(config), key, d) == FlagOf(config, key, d)
  {
    MergedGet(config, key);
  }

  /** The same for a number. */
  lemma MergedNumber(config: Config, key: string, d: int)
    requires Distinct(Keys(config))
    requires Get(DefaultConfig, key) == None || Get(DefaultConfig, key) == Some(Number(d))
    ensures NumberOf(Merged(config), key, d) == NumberOf(config, key, d)
  {
    MergedGet(config, key);
  }

  /** The settings `Encoder(config)` reads, each with its default. */
  predicate Configured(enc: Encoder, config: Config)
  {
    && enc.indent == NumberOf(config, "indent", 2)
    && enc.startIndent == NumberOf(config, "start_indent", 0)
    && enc.compact == FlagOf(config, "compact", false)
    && enc.escapeNewLines == FlagOf(config, "escape_new_lines", false)
    && enc.colorize == FlagOf(config, "colorize", false)
    && enc.includeComments == FlagOf(config, "include_comments", true)
    && enc.includeArraySize == FlagOf(config, "include_array_size", false)
    && enc.includeSchema == FlagOf(config, "include_schema", true)
    && enc.includeType == FlagOf(config, "include_type", true)
    && enc.includeMeta == FlagOf(config, "include_meta", true)
    && enc.promptOutput == FlagOf(config, "prompt_output", false)
  }

  /**
   * Every default in `DEFAULT_CONFIG` is the default the encoder applies
   * itself, so an encoder built from the merged configuration is set up
   * exactly as one built from `config` alone.  (`remove_new_lines` is read
   * by nothing; the encoder's `escape_new_lines` and `include_meta` have
   * no entry there.)
   */
  lemma MergedConfigured(enc: Encoder, config: Config)
    requires Distinct(Keys(config)) && Configured(enc, Merged(config))
    ensures Configured(enc, config)
  {
    DefaultSettings();
    MergedNumber(config, "indent", 2);
    MergedNumber(config, "start_indent", 0);
    MergedFlag(config, "compact", false);
    MergedFlag(config, "escape_new_lines", false);
    MergedFlag(config, "colorize", false);
    MergedFlag(config, "include_comments", true);
    MergedFlag(config, "include_array_size", false);
    MergedFlag(config, "include_schema", true);
    MergedFlag(config, "include_type", true);
    MergedFlag(config, "include_meta", true);
    MergedFlag(config, "prompt_output", false);
  }

  /** What `encode` is given: a `Node`, or any other Python data. */
  datatype Input = Raw(value: Value) | Tree(node: Node)

  /** What `encode` raises: `parse`'s `EncodingError`, or an exception of the encoder. */
  datatype EncodeError = EncodingError(message: string) | Raised(failure: Failure)

  function Raising(r: Result<string, Failure>): Result<string, EncodeError>
  {
    if r.Ok? then Ok(r.value) else Err(Raised(r.error))
  }

  /** Every schema `parse` creates has its element and fields among those it creates. */
  lemma CreatedClosed(M: set<Schema>)
    requires Created(M)
    ensures Closed(M)
  {
  }

  // ----------------------------------------------------------------
  // A dict of scalars
  // ----------------------------------------------------------------

  /** A non-empty dict with distinct, non-empty keys whose values are all scalars. */
  predicate FlatDict(es: seq<(string, Value)>)
  {
    && |es| > 0 && Distinct(Keys(es))
    && forall k :: 0 <= k < |es| ==> es[k].0 != "" && IsPrimitive(es[k].1)
  }

  /** Each key with the type name `parse` gives its value, as a field of the header. */
  function FlatFieldParts(enc: Encoder, es: seq<(string, Value)>): (ps: seq<string>)
    ensures |ps| == |es|
  {
    seq(|es|, k requires 0 <= k < |es| =>
      enc.FieldPart(es[k].0, ExpectedShape(es[k].1), "", Strip(ExpectedShape(es[k].1).typeName)))
  }

  /** The header such a dict gets: its fields between `<` and `>`, no type name, no metadata. */
  function FlatHeader(enc: Encoder, es: seq<(string, Value)>): string
  {
    Spaces(enc.startIndent) + "<" + enc.Pad() + Join("," + enc.Pad(), FlatFieldParts(enc, es)) + enc.Pad() + ">"
  }

  /** Its data: the values' texts, in key order, between parentheses. */
  function FlatData(enc: Encoder, es: seq<(string, Value)>): string
    requires FlatDict(es)
  {
    "(" + Join(if enc.compact then "," else ", ", enc.EntryTexts(ValuesOf(es))) + ")"
  }

  /** What `encode` returns for such a dict: the header, then the data. */
  function FlatText(enc: Encoder, es: seq<(string, Value)>): Result<string, Failure>
    requires FlatDict(es)
  {
    var header := if enc.includeSchema then Some(Ok(FlatHeader(enc, es))) else None;
    enc.Assemble(header, enc.startIndent, Ok(FlatData(enc, es)))
  }

  /** What `encode` returns for a scalar: its type name as the header, then its text. */
  function ScalarText(enc: Encoder, v: Value): Result<string, Failure>
  {
    var header := if enc.includeSchema then Some(Ok(Spaces(enc.startIndent) + ExpectedShape(v).typeName)) else None;
    enc.Assemble(header, enc.startIndent, enc.ValueText(v))
  }

  /**
   * The tree `parse` builds for a dict of scalars is a record without
   * metadata whose fields are the scalars' primitive schemas, named by
   * the keys: its header and data read as above.
   */
  lemma FlatDictParsed(enc: Encoder, es: seq<(string, Value)>, node: Node, made: set<Schema>, fuel: nat, base: int)
    requires FlatDict(es) && fuel > 1 && base == enc.startIndent
    requires FlatParsed(es, node, made)
    ensures Encoder.BareRecord(node.schema)
    ensures enc.BareRecordHeader(node.schema, base) == FlatHeader(enc, es)
    ensures enc.DataText(node, 0, fuel) == Ok(FlatData(enc, es))
  {
    var s := node.schema;
    var fs := s.fieldsList;
    forall k | 0 <= k < |fs|
      ensures fs[k].name == es[k].0 && fs[k].MetaContent() == EmptyMeta
      ensures fs[k].kind == Primitive && fs[k].typeName == ExpectedShape(es[k].1).typeName
    {
      assert fs[k] in made;
      assert fs[k].Shape() == ExpectedShape(es[k].1);
    }
    assert s.MetaContent() == EmptyMeta;
    assert s.IsAny() by { assert s.Shape() == MkShape(Record, "any"); }
    var parts := enc.FieldParts(fs, Encoder.Blanks(|fs|), enc.FieldTypes(fs));
    assert parts == FlatFieldParts(enc, es);
    assert Spaces(enc.startIndent) + enc.SchemaPrefix(s) == Spaces(enc.startIndent);

    var children := ValuesOf(node.fields);
    var vals := ValuesOf(es);
    assert Keys(node.fields) == Keys(es);
    forall k | 0 <= k < |children| ensures Get(node.fields, fs[k].name) == Some(children[k]) {
      GetAt(node.fields, k);
    }
    enc.FlatRecordData(node, children, vals, 0, fuel);
  }

  // ----------------------------------------------------------------
  // encode
  // ----------------------------------------------------------------

  /** A dict of scalars is one `parse` accepts. */
  lemma FlatSupported(es: seq<(string, Value)>)
    requires FlatDict(es)
    ensures Supported(Value.Dict(es))
  {
    forall k | 0 <= k < |es| ensures Supported(es[k].1) {
      assert IsPrimitive(es[k].1);
    }
  }

  /** What `parse` made of a dict of scalars, as `FlatDictParsed` needs it. */
  ghost predicate FlatParsed(es: seq<(string, Value)>, n: Node, made: set<Schema>)
    reads n, n.schema, set j | 0 <= j < |n.fields| :: n.fields[j].1
    reads if n.schema == null then {} else set f | f in n.schema.fieldsList
    reads made`element, made`fieldsList, made`comments, made`attr, made`tags, made`required
  {
    ParsedAs(Value.Dict(es), n) && DictChildren(es, n) && n.MetaContent() == EmptyMeta && Created(made) && n.schema in made
  }

  /**
   * The first half of `encode`: a node is taken as it is, other data is
   * parsed, and a value `parse` refuses gives its message.  `reach` holds
   * the schemas the node reaches.
   */
  method NodeOf(data: Input, fuel: nat, ghost S: set<Schema>) returns (n: Node?, message: string, ghost reach: set<Schema>)
    requires data.Tree? ==> ReachIn(data.node.schema, fuel, S)
    ensures data.Tree? ==> n == data.node && reach == S
    ensures data.Raw? ==> fresh(reach) && (n == null <==> !Supported(data.value))
    ensures data.Raw? && n == null ==> message == UnsupportedMessage(FirstUnsupported(data.value).value)
    ensures n != null ==> ReachIn(n.schema, fuel, reach)
    ensures data.Raw? && data.value.Dict? && Distinct(Keys(data.value.entries)) && n != null ==>
      FlatParsed(data.value.entries, n, reach)
    ensures data.Raw? && n != null ==>
      ParsedAs(data.value, n) && n.MetaContent() == EmptyMeta && n.schema.MetaContent() == EmptyMeta
  {
    message := "";
    match data {
      case Tree(t) =>
        n, reach := t, S;
      case Raw(v) =>
        var p;
        p, reach := Parse.Parse(v);
        if p.Err? {
          return null, p.error, reach;
        }
        n := p.value;
        CreatedClosed(reach);
        ClosedReach(reach, n.schema, fuel);
    }
  }

  /** `Encoder(cfg)`. */
  method NewEncoder(config: Config) returns (e: Encoder)
    ensures fresh(e) && Configured(e, config)
  {
    e := new Encoder(config);
  }

  /**
   * `encode(data, config)`.  Data that is not a node is parsed first, and
   * a value `parse` refuses raises its `EncodingError`; the encoder is
   * built from the merged configuration and encodes the node at
   * indentation 0 with its schema.  `fuel` bounds the encoder's recursion
   * and `S` holds the schemas a given node reaches.
   */
  method Encode(data: Input, config: Config, fuel: nat, ghost S: set<Schema>)
    returns (r: Result<string, EncodeError>, ghost node: Node?, ghost enc: Encoder?, ghost header: Option<Result<string, Failure>>)
    requires data.Tree? ==> ReachIn(data.node.schema, fuel, S)
    modifies S`comments, S`attr, S`tags, S`required
    ensures data.Raw? && !Supported(data.value) ==>
      r == Err(EncodingError(UnsupportedMessage(FirstUnsupported(data.value).value)))
    ensures data.Tree? ==> node == data.node
    ensures data.Tree? || Supported(data.value) ==>
      && node != null && enc != null && Configured(enc, Merged(config))
      && (header.Some? <==> node.schema != null && enc.includeSchema)
      && r == Raising(enc.Assemble(header, enc.startIndent, enc.DataText(node, 0, fuel)))
      && enc.ShapedHeader(node.schema, fuel, enc.startIndent, header)
    ensures data.Raw? && data.value.Dict? && FlatDict(data.value.entries) && fuel > 1 ==>
      enc != null && Configured(enc, Merged(config)) && r == Raising(FlatText(enc, data.value.entries))
    ensures data.Raw? && IsPrimitive(data.value) && fuel > 0 ==>
      enc != null && Configured(enc, Merged(config)) && r == Raising(ScalarText(enc, data.value))
  {
    ghost var flat := data.Raw? && data.value.Dict? && FlatDict(data.value.entries) && fuel > 1;
    ghost var es := if flat then data.value.entries else [];
    ghost var scalar := data.Raw? && IsPrimitive(data.value) && fuel > 0;
    ghost var v := if data.Raw? then data.value else Null;
    // Building the encoder only allocates it, so doing it before the
    // parse rather than after changes nothing observable.
    var e := NewEncoder(Merged(config));
    var n, message;
    ghost var reach;
    n, message, reach := NodeOf(data, fuel, S);
    if data.Raw? && data.value.Dict? && FlatDict(data.value.entries) {
      FlatSupported(data.value.entries);
    }
    if n == null {
      return Err(EncodingError(message)), null, null, None;
    }
    var res;
    node := n;
    enc := e;
    res, header := EncodeNode(e, n, fuel, reach, flat, es, scalar, v);
    r := Raising(res);
  }

  /**
   * The encoder's `encode(node, include_schema=True)` at indentation 0;
   * when `flat`, the node is what `parse` made of the dict of scalars
   * `es` and the text is `FlatText`.
   */
  method EncodeNode(e: Encoder, n: Node, fuel: nat, ghost S: set<Schema>, ghost flat: bool, ghost es: seq<(string, Value)>,
                    ghost scalar: bool, ghost v: Value)
    returns (res: Result<string, Failure>, ghost header: Option<Result<string, Failure>>)
    requires ReachIn(n.schema, fuel, S)
    requires flat ==> FlatDict(es) && fuel > 1 && FlatParsed(es, n, S)
    requires scalar ==> IsPrimitive(v) && fuel > 0 && ParsedAs(v, n) && n.MetaContent() == EmptyMeta && n.schema.MetaContent() == EmptyMeta
    modifies S`comments, S`attr, S`tags, S`required
    ensures header.Some? <==> n.schema != null && e.includeSchema
    ensures res == e.Assemble(header, e.startIndent, e.DataText(n, 0, fuel))
    ensures e.ShapedHeader(n.schema, fuel, e.startIndent, header)
    ensures flat ==> res == FlatText(e, es)
    ensures scalar ==> res == ScalarText(e, v)
  {
    ghost var base := e.startIndent + 0;
    assert base == e.startIndent;
    ghost var flatHeader := None;
    ghost var flatData := Ok("");
    if flat {
      FlatDictParsed(e, es, n, S, fuel, base);
      flatHeader := if e.includeSchema then Some(Ok(FlatHeader(e, es))) else None;
      flatData := Ok(FlatData(e, es));
    }
    res, header := e.Encode(n, 0, true, fuel, S);
    if scalar {
      ScalarEncoded(e, n, v, fuel, header);
    }
    if flat {
      assert header == flatHeader && res == e.Assemble(flatHeader, base, flatData);
    }
  }

  /**
   * A scalar's node as `parse` makes it, with its schema's header: the
   * header is its type name and the data its value's text.
   */
  lemma ScalarEncoded(e: Encoder, n: Node, v: Value, fuel: nat, header: Option<Result<string, Failure>>)
    requires IsPrimitive(v) && fuel > 0 && ParsedAs(v, n) && n.MetaContent() == EmptyMeta && n.schema.MetaContent() == EmptyMeta
    requires header.Some? <==> e.includeSchema
    requires header.Some? ==> header == Some(e.PrimitiveHeader(n.schema, e.startIndent))
    ensures e.Assemble(header, e.startIndent, e.DataText(n, 0, fuel)) == ScalarText(e, v)
  {
    e.MetaStringOfEmpty();
    assert n.IsPrimitive() && !n.IsList();
    assert e.DataText(n, 0, fuel) == e.ValueText(v);
    if header.Some? {
      var t := n.schema.typeName;
      assert t == ExpectedShape(v).typeName by { assert n.schema.Shape() == ExpectedShape(v); }
      assert e.MetaString(n.schema.MetaContent()) == Ok("");
      assert Encoder.Spaced(Ok("")) == Ok("");
      assert "" + t == t;
    }
  }

  /** `encode({"x": 10, "y": 20}, {"compact": True})`. */
  method CompactExample() returns (r: Result<string, EncodeError>)
    ensures r == Ok("<x:number,y:number>(10,20)")
  {
    var es := [("x", Int(10)), ("y", Int(20))];
    var config := [("compact", Flag(true))];
    ghost var node, enc, header;
    assert FlatDict(es) by {
      assert Keys(es) == ["x", "y"];
    }
    r, node, enc, header := Encode(Raw(Value.Dict(es)), config, 2, {});
    MergedConfigured(enc, config);
    CompactText(enc, es);
  }

  /** The settings `{"compact": True}` gives the encoder. */
  lemma CompactSettings(enc: Encoder)
    requires Configured(enc, [("compact", Flag(true))])
    ensures enc.compact && enc.includeType && enc.includeSchema && enc.startIndent == 0
  {
    var c: Config := [("compact", Flag(true))];
    assert Keys(c) == ["compact"];
    assert "include_type"[0] != "compact"[0] && "include_schema"[0] != "compact"[0];
    assert "start_indent"[0] != "compact"[0];
  }

  /** A field holding a number shows its name and type. */
  lemma NumberPart(enc: Encoder, name: string, v: Value)
    requires v.Int? && enc.includeType
    ensures enc.FieldPart(name, ExpectedShape(v), "", Strip(ExpectedShape(v).typeName)) == name + ":number"
  {
    StripWord("number");
    assert "number" != "any";
  }

  /**
   * The field parts of `{x: 10, y: 20}`.  This lemma and the `Compact*`
   * lemmas after it work through the single example
   * `encode({"x": 10, "y": 20}, {"compact": True})` to its text; what holds
   * for every dict of scalars is in `FlatDictParsed` and `FlatDataReadsBack`.
   */
  lemma CompactParts(enc: Encoder, es: seq<(string, Value)>)
    requires es == [("x", Int(10)), ("y", Int(20))] && enc.includeType
    ensures FlatFieldParts(enc, es) == ["x:number", "y:number"]
  {
    var ps := FlatFieldParts(enc, es);
    NumberPart(enc, "x", Int(10));
    NumberPart(enc, "y", Int(20));
    assert ps[0] == "x" + ":number" && ps[1] == "y" + ":number";
    assert "x" + ":number" == "x:number" && "y" + ":number" == "y:number";
  }

  /** The header of `{x: 10, y: 20}` in compact mode. */
  lemma CompactHeader(enc: Encoder, es: seq<(string, Value)>)
    requires es == [("x", Int(10)), ("y", Int(20))]
    requires enc.compact && enc.includeType && enc.startIndent == 0
    ensures FlatHeader(enc, es) == "<x:number,y:number>"
  {
    CompactParts(enc, es);
    CompactFrame(enc, es);
    JoinPair(",", "x:number", "y:number");
    HeaderLiteral();
  }

  lemma HeaderLiteral()
    ensures "<" + ("x:number" + "," + "y:number") + ">" == "<x:number,y:number>"
  {
    assert "x:number" + "," + "y:number" == "x:number,y:number";
  }

  /** In compact mode at indentation 0 the header is its field parts between `<` and `>`. */
  lemma CompactFrame(enc: Encoder, es: seq<(string, Value)>)
    requires enc.compact && enc.startIndent == 0
    ensures FlatHeader(enc, es) == "<" + Join(",", FlatFieldParts(enc, es)) + ">"
  {
    assert enc.Pad() == "" && Spaces(enc.startIndent) == "" && "," + enc.Pad() == ",";
  }

  /** The entry texts of `{x: 10, y: 20}`. */
  lemma CompactEntries(enc: Encoder, es: seq<(string, Value)>)
    requires es == [("x", Int(10)), ("y", Int(20))] && FlatDict(es)
    ensures enc.EntryTexts(ValuesOf(es)) == ["10", "20"]
  {
    TensDigits(1);
    TensDigits(2);
    StripWord("10");
    StripWord("20");
    assert ValuesOf(es) == [Int(10), Int(20)];
  }

  lemma TensDigits(d: nat)
    requires 1 <= d <= 9
    ensures Digits(10 * d) == [DigitChar(d), '0']
  {
    assert Digits(d) == [DigitChar(d)];
    assert DigitChar(0) == '0';
  }

  /** The data of `{x: 10, y: 20}` in compact mode. */
  lemma CompactData(enc: Encoder, es: seq<(string, Value)>)
    requires es == [("x", Int(10)), ("y", Int(20))] && FlatDict(es)
    requires enc.compact
    ensures FlatData(enc, es) == "(10,20)"
  {
    CompactEntries(enc, es);
    JoinPair(",", "10", "20");
  }

  lemma CompactText(enc: Encoder, es: seq<(string, Value)>)
    requires es == [("x", Int(10)), ("y", Int(20))] && FlatDict(es)
    requires Configured(enc, [("compact", Flag(true))])
    ensures FlatText(enc, es) == Ok("<x:number,y:number>(10,20)")
  {
    CompactSettings(enc);
    CompactHeader(enc, es);
    CompactData(enc, es);
    var h := "<x:number,y:number>";
    StripWord(h);
    assert StartsWith(h, "<");
    assert enc.HeaderText(h, enc.startIndent) == h;
    assert h + "(10,20)" == "<x:number,y:number>(10,20)";
  }

  /** `encode(123, {"compact": True})`: the primitive's type name as the header, then the number. */
  method PrimitiveExample() returns (r: Result<string, EncodeError>)
    ensures r == Ok("<number>123")
  {
    var config := [("compact", Flag(true))];
    ghost var node, enc, header;
    r, node, enc, header := Encode(Raw(Int(123)), config, 1, {});
    MergedConfigured(enc, config);
    PrimitiveText(enc);
  }

  /** The text `encode(123, {"compact": True})` is built from. */
  lemma PrimitiveText(enc: Encoder)
    requires Configured(enc, [("compact", Flag(true))])
    ensures ScalarText(enc, Int(123)) == Ok("<number>123")
  {
    CompactSettings(enc);
    var h := "number";
    StripWord(h);
    assert Spaces(enc.startIndent) + ExpectedShape(Int(123)).typeName == h;
    assert enc.HeaderText(h, enc.startIndent) == "<number>";
    assert IntToString(123) == "123" by {
      assert Digits(123) == Digits(12) + [DigitChar(3)];
      assert Digits(12) == Digits(1) + [DigitChar(2)];
    }
    assert "<number>" + "123" == "<number>123";
  }
}
