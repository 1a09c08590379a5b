/**
 * `Decoder`: the recursive-descent reader of the text format.  It walks a
 * cursor over the text and keeps a pending-metadata accumulator, a schema
 * stack, a node stack, the named schemas seen so far, and the error and
 * warning lists (errors stop being recorded at fifty).
 */
module Decoding {
  import opened Wrappers
  import opened Text
  import opened Values
  import opened OrderedMap
  import opened Meta
  import opened Schemas
  import opened Nodes
  import opened Scan

  /** `Decoder.MAX_ERRORS`. */
  const MaxErrors := 50

  /** A `DecodeError` or `DecodeWarning`: its message and the cursor position. */
  datatype Diagnostic = Diagnostic(message: string, position: nat)

  /** What `_add_error` leaves: the entry appended unless fifty are already recorded. */
  function Logged(errors: seq<Diagnostic>, d: Diagnostic): (r: seq<Diagnostic>)
    ensures |errors| < MaxErrors ==> r == errors + [d]
    ensures |errors| >= MaxErrors ==> r == errors
  {
    if |errors| >= MaxErrors then errors else errors + [d]
  }

  /** The error list never holds more than fifty entries, however many are reported. */
  lemma LoggedBounded(errors: seq<Diagnostic>, d: Diagnostic)
    requires |errors| <= MaxErrors
    ensures |Logged(errors, d)| <= MaxErrors
    ensures errors <= Logged(errors, d)
  {
  }

  /** The cursor after moving `n` characters, stopped at the end of the text. */
  function Forward(text: string, i: nat, n: nat): (j: nat)
    requires i <= |text|
    ensures i <= j <= |text|
  {
    if i + n <= |text| then i + n else |text|
  }

  /** `f"{self._peek()}"`: the current character, or `None` at the end. */
  function PeekText(text: string, i: nat): string
  {
    if i < |text| then [text[i]] else "None"
  }

  /** `_expect`'s error message. */
  function ExpectMessage(c: char, text: string, i: nat): string
  {
    "Expected '" + [c] + "', got '" + PeekText(text, i) + "'"
  }

  /** `true`, `false` and `null` are keywords; any other bare word is a string. */
  function Keyword(raw: string): (v: Value)
    ensures v.Bool? <==> raw == "true" || raw == "false"
    ensures v.Null? <==> raw == "null"
    ensures v.Str? ==> v.s == raw
  {
    if raw == "true" then Bool(true)
    else if raw == "false" then Bool(false)
    else if raw == "null" then Null
    else Str(raw)
  }

  /** Where a quoted string starting at `i` leaves the cursor: past its closing quote. */
  function QuotedEnd(text: string, i: nat): (e: nat)
    requires i < |text|
    ensures i < e <= |text|
  {
    var r := QuotedScan(text, i + 1, "");
    if r.1 < |text| then r.1 + 1 else |text|
  }

  /**
   * `_parse_primitive_value` from `i`: nothing at the end of the text, a
   * quoted string, a number, or a bare word; the value and the end position.
   */
  function PrimitiveAt(text: string, i: nat): (r: (Value, nat))
    requires i <= |text|
    ensures i <= r.1 <= |text|
  {
    if i == |text| then (Null, i)
    else if text[i] == '"' then (Str(QuotedScan(text, i + 1, "").0), QuotedEnd(text, i))
    else if IsDigit(text[i]) || text[i] == '-' then (NumberAt(text, i), NumberScan(text, i).end)
    else (Keyword(IdentAt(text, i)), IdentAtEnd(text, i))
  }

  /**
   * `key` or `key=value` after a `$` (or an implicit attribute): the key,
   * the value (True without `=`), and where the cursor stops.
   */
  function AttributeAt(text: string, i: nat): (r: (string, Value, nat))
    requires i <= |text|
    ensures i <= r.2 <= |text|
  {
    var v := AttributeValueAt(text, SkipSpace(text, IdentAtEnd(text, i)));
    (IdentAt(text, i), v.0, v.1)
  }

  /** After an attribute's key (and the spaces after it): `=value`, or True with the cursor left where it is. */
  function AttributeValueAt(text: string, j: nat): (r: (Value, nat))
    requires j <= |text|
    ensures j <= r.1 <= |text|
  {
    if j < |text| && text[j] == '=' then PrimitiveAt(text, j + 1) else (Bool(true), j)
  }

  const Unterminated := "Unterminated comment (expected '*/')"

  /**
   * What comes next inside a `/ ... /` block once whitespace is skipped, as
   * `_parse_meta_block` decides it.  `Stuck` is the source's end-of-text
   * case, which it does not handle (see `ClassifyAsWritten`).
   */
  datatype BlockItem = AtEnd | Stuck | Comment | Close | Attribute | Tag | Flag | Implicit | Unexpected

  /**
   * The decision as written: at the end of the text the character is None
   * and `None.isalnum()` raises; a digit opens an implicit attribute.
   */
  function ClassifyAsWritten(text: string, j: nat): BlockItem
    requires j <= |text|
  {
    if j == |text| then Stuck
    else if text[j] == '/' && j + 1 < |text| && text[j + 1] == '*' then Comment
    else if text[j] == '/' then Close
    else if text[j] == '$' then Attribute
    else if text[j] == '#' then Tag
    else if text[j] == '!' then Flag
    else if IsAlnum(text[j]) || text[j] == '_' then Implicit
    else Unexpected
  }

  /**
   * The decision as the block evidently intends it: the block ends with the
   * text, and an implicit attribute starts only where an identifier can.
   */
  function Classify(text: string, j: nat): (b: BlockItem)
    requires j <= |text|
    ensures b != Stuck
    ensures b == AtEnd <==> j == |text|
    ensures b == Implicit ==> IdentAtEnd(text, j) > j
    ensures b == Close ==> j < |text| && text[j] == '/'
    ensures j < |text| && ClassifyAsWritten(text, j) != Implicit ==> b == ClassifyAsWritten(text, j)
  {
    if j == |text| then AtEnd
    else if text[j] == '/' && j + 1 < |text| && text[j + 1] == '*' then Comment
    else if text[j] == '/' then Close
    else if text[j] == '$' then Attribute
    else if text[j] == '#' then Tag
    else if text[j] == '!' then Flag
    else if IsIdentStart(text[j]) then Implicit
    else Unexpected
  }

  /**
   * As written, `/1/` never ends: at the digit an implicit attribute is
   * started, `_parse_ident` reads nothing, and the loop comes back to the
   * same position.
   */
  lemma ImplicitAttributeStalls()
    ensures ClassifyAsWritten("/1/", 1) == Implicit
    ensures IdentAtEnd("/1/", 1) == 1
    ensures SkipSpace("/1/", IdentAtEnd("/1/", 1)) == 1
    ensures Classify("/1/", 1) == Unexpected
  {
  }

  /** As written, `/ ` followed by the end of the text reaches `None.isalnum()`. */
  lemma OpenBlockAtEndCrashes()
    ensures SkipSpace("/ ", 1) == 2
    ensures ClassifyAsWritten("/ ", 2) == Stuck
    ensures Classify("/ ", 2) == AtEnd
  {
  }

  /**
   * One entry of a `/ ... /` block at `j` (or an inline modifier): the
   * metadata with the entry added, and where the cursor stops.  A comment
   * is appended stripped, `$key=value` and an implicit `key=value` set the
   * attribute, `#tag` is appended, `!required` sets the flag (any other flag
   * changes nothing), and an unexpected character is skipped.
   */
  function EntryAt(text: string, j: nat, item: BlockItem, meta: MetaData): (r: (MetaData, nat))
    requires j <= |text| && item == Classify(text, j) && item != AtEnd && item != Close
    ensures j < r.1 <= |text|
    ensures item == Unexpected ==> r == (meta, j + 1)
    ensures r.0.comments == meta.comments + (if item == Comment then [Strip(CommentScan(text, j + 2, 1, "").0)] else [])
    ensures r.0.tags == meta.tags + (if item == Tag then [IdentAt(text, j + 1)] else [])
    ensures r.0.required <==> meta.required || (item == Flag && IdentAt(text, j + 1) == "required")
    ensures item != Attribute && item != Implicit ==> r.0.attr == meta.attr
    ensures Keys(meta.attr) <= Keys(r.0.attr)
  {
    if item == Comment then
      var c := CommentScan(text, Forward(text, j, 2), 1, "");
      (meta.(comments := meta.comments + [Strip(c.0)]), c.1)
    else if item == Implicit then
      var a := AttributeAt(text, j);
      (meta.(attr := Put(meta.attr, a.0, a.1)), a.2)
    else if item == Unexpected then
      (meta, j + 1)
    else
      ModifierAt(text, j, meta)
  }

  /** A `$key=value`, `#tag` or `!flag` modifier at `j`: the metadata with it added, and where the cursor stops. */
  function ModifierAt(text: string, j: nat, meta: MetaData): (r: (MetaData, nat))
    requires j < |text| && ModifierStart(text[j])
    ensures j < r.1 <= |text|
    ensures r.0.comments == meta.comments
    ensures r.0.tags == meta.tags + (if text[j] == '#' then [IdentAt(text, j + 1)] else [])
    ensures r.0.required <==> meta.required || (text[j] == '!' && IdentAt(text, j + 1) == "required")
    ensures text[j] != '$' ==> r.0.attr == meta.attr
    ensures Keys(meta.attr) <= Keys(r.0.attr)
  {
    if text[j] == '$' then
      var a := AttributeAt(text, j + 1);
      (meta.(attr := Put(meta.attr, a.0, a.1)), a.2)
    else if text[j] == '#' then
      (meta.(tags := meta.tags + [IdentAt(text, j + 1)]), IdentAtEnd(text, j + 1))
    else
      (if IdentAt(text, j + 1) == "required" then meta.(required := true) else meta, IdentAtEnd(text, j + 1))
  }

  /**
   * `@Name` at `j` naming a schema already in `named`, with no `<...>`
   * body after it and neither metadata, whitespace, another header nor the
   * end of the text after the name: the header that binds the root to the
   * registered schema.
   */
  predicate RegisteredRef(text: string, j: nat, named: map<string, Schema>)
  {
    j < |text| && text[j] == '@' && IdentAt(text, j + 1) in named
    && var e := SkipSpace(text, IdentAtEnd(text, j + 1));
      e < |text| && !MetaStart(text[e]) && text[e] != '@' && text[e] != '<'
  }

  /**
   * `:` at `j` followed (after whitespace) by a primitive type name: the
   * type it maps to and where the name ends.
   */
  function PrimitiveTypeAt(text: string, j: nat): (r: Option<(string, nat)>)
    requires j <= |text|
    ensures r.Some? ==> j < r.value.1 <= |text| && text[j] == ':'
  {
    if j < |text| && text[j] == ':' && PrimitiveName(IdentAt(text, j + 1)).Some? then
      Some((PrimitiveName(IdentAt(text, j + 1)).value, IdentAtEnd(text, j + 1)))
    else None
  }

  /**
   * A field `name: primitive` at `k`: its name and mapped type, and the
   * first non-space position after it.
   */
  function FieldAt(text: string, k: nat): (r: Option<((string, string), nat)>)
    requires k <= |text|
    ensures r.Some? ==> k < r.value.1 <= |text| && IdentAt(text, k) == r.value.0.0 != ""
  {
    var name := IdentAt(text, k);
    if name == "" then None
    else
      var t := PrimitiveTypeAt(text, SkipSpace(text, IdentAtEnd(text, k)));
      if t.None? then None else Some(((name, t.value.0), SkipSpace(text, t.value.1)))
  }

  /** The characters that can close a schema body: not metadata, not whitespace. */
  predicate Closer(endChar: char)
  {
    !MetaStart(endChar) && !IsSpace(endChar)
  }

  /**
   * `s`'s fields are `before` followed by one field per entry of `fs`,
   * named and primitive-typed as that entry says.
   */
  ghost predicate FieldsRead(s: Schema, before: seq<Schema>, fs: seq<(string, string)>)
    reads s`fieldsList, s.fieldsList`name, s.fieldsList`kind, s.fieldsList`typeName
  {
    && |s.fieldsList| == |before| + |fs| && s.fieldsList[..|before|] == before
    && forall k :: 0 <= k < |fs| ==>
         && s.fieldsList[|before| + k].name == fs[k].0
         && s.fieldsList[|before| + k].kind == Primitive && s.fieldsList[|before| + k].typeName == fs[k].1
  }

  /** One field appended is read as its name and type. */
  lemma FieldsReadOne(s: Schema, before: seq<Schema>, f: Schema)
    requires s.fieldsList == before + [f] && f.kind == Primitive
    ensures FieldsRead(s, before, [(f.name, f.typeName)])
  {
    assert s.fieldsList[|before|] == f && s.fieldsList[..|before|] == before;
  }

  /**
   * A schema body made of `name: primitive` fields only, read from `k` up
   * to and past `endChar`: whitespace allowed around every token, a comma
   * after each field but the last (and after the last too, if wanted).
   * From the start of a body (or just after a comma) a field or the end
   * comes next; just after a field (`after`), a comma or the end.  The
   * fields as (name, mapped type) and the position past `endChar`; None
   * for any other text.
   */
  function FlatRest(text: string, k: nat, endChar: char, after: bool): (r: Option<(seq<(string, string)>, nat)>)
    requires k <= |text|
    ensures r.Some? ==> k < r.value.1 <= |text|
    decreases |text| - k
  {
    if after then
      if k == |text| || !Closer(endChar) then None
      else if text[k] == endChar then Some(([], k + 1))
      else if text[k] == ',' then FlatRest(text, k + 1, endChar, false)
      else None
    else
      var j := SkipSpace(text, k);
      if j == |text| || !Closer(endChar) then None
      else if text[j] == endChar then Some(([], j + 1))
      else
        var f := FieldAt(text, j);
        if f.None? then None
        else
          var rest := FlatRest(text, f.value.1, endChar, true);
          if rest.None? then None else Some(([f.value.0] + rest.value.0, rest.value.1))
  }

  /** `s` has the fields `fs` after `fields0`, and its kind and type name as a record of them would. */
  ghost predicate FieldsSoFar(s: Schema, fields0: seq<Schema>, kind0: SchemaKind, typeName0: string, fs: seq<(string, string)>)
    reads s`kind, s`typeName, s`fieldsList, s.fieldsList`name, s.fieldsList`kind, s.fieldsList`typeName
  {
    FieldsRead(s, fields0, fs) && s.kind == (if fs == [] then kind0 else Record) && s.typeName == typeName0
  }

  /**
   * A pass of the content loop over the flat body `w`: the fields read
   * so far grow by the one just read, and the reading goes on from the
   * cursor to the rest; at the end character, every field has been read.
   */
  lemma FlatStep(text: string, k: nat, k': nat, endChar: char, w: seq<(string, string)>, end: nat,
    done: seq<(string, string)>, after: bool, after': bool, read: seq<(string, string)>, stop: bool)
    requires k <= |text| && k' <= |text|
    requires |done| <= |w| && done == w[..|done|] && FlatRest(text, k, endChar, after) == Some((w[|done|..], end))
    requires ItemFlat(text, k, k', endChar, after, after', read, stop)
    ensures !stop ==> |done + read| <= |w| && done + read == w[..|done + read|] && FlatRest(text, k', endChar, after') == Some((w[|done + read|..], end))
    ensures stop ==> done + read == w && k' == end
  {
    assert w[|done|..][..|read|] == w[|done|..|done| + |read|];
    assert w[|done|..][|read|..] == w[|done + read|..];
  }

  /**
   * One pass of the content loop over a flat body read from `k` (just
   * after a field when `after`), leaving the cursor at `k'`: the end
   * character (`stop`), or a field `read`, or a comma passed; `after'`
   * says how the reading goes on from `k'`.
   */
  predicate ItemFlat(text: string, k: nat, k': nat, endChar: char, after: bool, after': bool, read: seq<(string, string)>, stop: bool)
    requires k <= |text| && k' <= |text|
  {
    var r := FlatRest(text, k, endChar, after);
    r.Some? ==>
      && |read| <= 1 && |read| <= |r.value.0| && read == r.value.0[..|read|]
      && (stop ==> r.value.0 == [] && k' == r.value.1)
      && (!stop ==> FlatRest(text, k', endChar, after') == Some((r.value.0[|read|..], r.value.1)))
  }

  /** A flat body read from a non-space `k`: the end character ends it there; nothing else there is a `[`. */
  lemma FlatAtCursor(text: string, k: nat, endChar: char, after: bool)
    requires k <= |text| && FlatRest(text, k, endChar, after).Some? && SkipSpace(text, k) == k
    ensures k < |text|
    ensures text[k] == endChar ==> FlatRest(text, k, endChar, after).value.0 == [] && FlatRest(text, k, endChar, after).value.1 == k + 1
    ensures text[k] != endChar ==> text[k] != '['
  {
    FlatRestStart(text, k, endChar, after);
  }

  /** In a flat body, short of its end, a comma comes exactly after a field. */
  lemma FlatCommaAfterField(text: string, k: nat, endChar: char, after: bool)
    requires k < |text| && FlatRest(text, k, endChar, after).Some? && SkipSpace(text, k) == k && text[k] != endChar
    ensures text[k] == ',' <==> after
  {
    FlatRestStart(text, k, endChar, after);
  }

  /**
   * Where a flat reading from `k` goes on: at the first non-space `j`,
   * which holds no metadata; there the end character, else a comma after
   * a field, else a field (not a `[`, not a comma) with the rest after it.
   */
  lemma FlatRestStart(text: string, k: nat, endChar: char, after: bool)
    requires k <= |text| && FlatRest(text, k, endChar, after).Some?
    ensures var j := SkipSpace(text, k);
      && j < |text| && !MetaStart(text[j]) && SkipSpace(text, j) == j && (after ==> j == k)
      && (text[j] != endChar && after ==> text[j] == ',' && FlatRest(text, k, endChar, after) == FlatRest(text, j + 1, endChar, false))
      && (text[j] != endChar && !after ==>
            && FieldAt(text, j).Some? && IsIdentStart(text[j])
            && SkipSpace(text, IdentAtEnd(text, j)) < |text| && text[SkipSpace(text, IdentAtEnd(text, j))] == ':'
            && var f := FieldAt(text, j).value; var rest := FlatRest(text, f.1, endChar, true);
               && rest.Some? && f.1 < |text| && !MetaStart(text[f.1])
               && FlatRest(text, k, endChar, after) == Some(([f.0] + rest.value.0, rest.value.1)))
  {
    var j := SkipSpace(text, k);
    assert SkipSpace(text, j) == j;
    if !after && text[j] != endChar {
      assert FlatRest(text, k, endChar, false) == FlatRest(text, j, endChar, false);
      FlatFieldAt(text, j, endChar);
    }
  }

  /** A flat reading at a non-space `j` that is not the end character starts with a field `name:type`. */
  lemma FlatFieldAt(text: string, j: nat, endChar: char)
    requires j < |text| && SkipSpace(text, j) == j && text[j] != endChar && FlatRest(text, j, endChar, false).Some?
    ensures FieldAt(text, j).Some? && IsIdentStart(text[j]) && !MetaStart(text[j])
    ensures SkipSpace(text, IdentAtEnd(text, j)) < |text| && text[SkipSpace(text, IdentAtEnd(text, j))] == ':'
    ensures var f := FieldAt(text, j).value; var rest := FlatRest(text, f.1, endChar, true);
      && rest.Some? && f.1 < |text| && !MetaStart(text[f.1])
      && FlatRest(text, j, endChar, false) == Some(([f.0] + rest.value.0, rest.value.1))
  {
    assert IdentEnd(text, j) > j;
    var f := FieldAt(text, j).value;
    var t := PrimitiveTypeAt(text, SkipSpace(text, IdentAtEnd(text, j)));
    assert t.Some? && f.1 == SkipSpace(text, t.value.1);
  }


  /**
   * A flat definition `@Name<fs>` at `k` whose body ends at `end`, with
   * another header `@` after it (after whitespace).
   */
  predicate DefinitionBeforeHeader(text: string, k: nat, fs: seq<(string, string)>, end: nat)
  {
    && k < |text| && text[k] == '@'
    && var j := SkipSpace(text, IdentAtEnd(text, k + 1));
       && j < |text| && text[j] == '<' && FlatRest(text, j + 1, '>', false) == Some((fs, end))
       && end <= |text| && SkipSpace(text, end) < |text| && text[SkipSpace(text, end)] == '@'
  }

  /** The `n` characters from `a` are the `n` characters from `b`, compared one at a time. */
  predicate SameRun(text: string, a: nat, b: nat, n: nat)
    decreases n
  {
    n == 0 || (a < |text| && b < |text| && text[a] == text[b] && SameRun(text, a + 1, b + 1, n - 1))
  }

  lemma {:induction false} SameRunSlices(text: string, a: nat, b: nat, n: nat)
    requires a <= |text| && b <= |text| && SameRun(text, a, b, n)
    ensures a + n <= |text| && b + n <= |text| && text[a..a + n] == text[b..b + n]
    decreases n
  {
    if n > 0 {
      SameRunSlices(text, a + 1, b + 1, n - 1);
      assert text[a..a + n] == [text[a]] + text[a + 1..a + n];
      assert text[b..b + n] == [text[b]] + text[b + 1..b + n];
    }
  }

  /** The identifiers `_parse_ident` reads at `a` and at `b` are spelled the same. */
  predicate SameIdent(text: string, a: nat, b: nat)
    requires a <= |text| && b <= |text|
  {
    var sa, sb := SkipSpace(text, a), SkipSpace(text, b);
    IdentEnd(text, sa) - sa == IdentEnd(text, sb) - sb && SameRun(text, sa, sb, IdentEnd(text, sa) - sa)
  }

  lemma SameIdentAt(text: string, a: nat, b: nat)
    requires a <= |text| && b <= |text| && SameIdent(text, a, b)
    ensures IdentAt(text, a) == IdentAt(text, b)
  {
    var sa, sb := SkipSpace(text, a), SkipSpace(text, b);
    SameRunSlices(text, sa, sb, IdentEnd(text, sa) - sa);
  }

  /**
   * `@` at `m` names (after whitespace) the identifier named at `k + 1`,
   * and the data follows it rather than metadata or another header.
   */
  predicate UsedAgain(text: string, k: nat, m: nat)
  {
    && k < |text| && m < |text| && text[m] == '@' && SameIdent(text, m + 1, k + 1)
    && var e := SkipSpace(text, IdentAtEnd(text, m + 1));
       e < |text| && !MetaStart(text[e]) && text[e] != '@' && text[e] != '<'
  }

  /**
   * A header run that defines a record type and binds the root to it: the
   * flat definition `@Name<fs>` at `k`, then (after whitespace) `@Name`
   * again and the data.
   */
  predicate DefinedThenUsed(text: string, k: nat, fs: seq<(string, string)>, end: nat)
  {
    DefinitionBeforeHeader(text, k, fs, end) && UsedAgain(text, k, SkipSpace(text, end))
  }

  /**
   * `@` at `j` names `name` and is followed (after whitespace and the name)
   * by the data rather than by metadata or another header.
   */
  predicate RefersTo(text: string, j: nat, name: string)
  {
    && j < |text| && text[j] == '@' && IdentAt(text, j + 1) == name
    && var e := SkipSpace(text, IdentAtEnd(text, j + 1));
       e < |text| && !MetaStart(text[e]) && text[e] != '@' && text[e] != '<'
  }

  /**
   * After an `@` header, a use of a registered name has stopped the
   * headers at the registered schema, with the registrations unchanged.
   */
  lemma UsedAfterHeader(text: string, at: nat, name: string, reg: map<string, Schema>, named: map<string, Schema>,
                        root: Schema?, stop: bool)
    requires RefersTo(text, at, name) && name in reg
    requires RegisteredRef(text, at, reg) ==>
      stop && root == reg[IdentAt(text, at + 1)] && named == reg
    ensures stop && named == reg && root == named[name]
  {
    RefersToRegistered(text, at, name, reg);
  }

  /** A reference to a registered name is a registered reference to its schema. */
  lemma RefersToRegistered(text: string, j: nat, name: string, reg: map<string, Schema>)
    requires RefersTo(text, j, name) && name in reg
    ensures RegisteredRef(text, j, reg) && reg[IdentAt(text, j + 1)] == reg[name]
  {
  }

  /** The second header of a run refers to the name its first header defines. */
  lemma UsedAgainRefersTo(text: string, k: nat, m: nat)
    requires UsedAgain(text, k, m)
    ensures RefersTo(text, m, IdentAt(text, k + 1))
  {
    SameIdentAt(text, m + 1, k + 1);
  }

  /**
   * What a bare type name stands for against the registry `reg`: a new
   * primitive, the registered schema, a new `any` for no name, or a new
   * record placeholder.
   */
  twostate predicate NamedTypeIs(new t: Schema, new name: string, reg: map<string, Schema>)
    reads t
  {
    var p := PrimitiveName(name);
    && (p.Some? ==> fresh(t) && t.Shape() == MkShape(Primitive, p.value))
    && (p.None? && name in reg ==> t == reg[name])
    && (p.None? && name !in reg && name == "" ==> fresh(t) && t.Shape() == MkShape(SchemaKind.Any, "any"))
    && (p.None? && name !in reg && name != "" ==> fresh(t) && t.Shape() == MkShape(Record, name))
  }

  /** `after` starts with `before`. */
  predicate Extends<T(==)>(after: seq<T>, before: seq<T>)
  {
    |before| <= |after| && after[..|before|] == before
  }

  /** A record typed `typeName` (`any` when empty) whose fields are exactly `fs`. */
  ghost predicate FlatRecord(s: Schema, typeName: string, fs: seq<(string, string)>)
    reads s`kind, s`typeName, s`fieldsList, s.fieldsList`name, s.fieldsList`kind, s.fieldsList`typeName
  {
    s.Shape() == MkShape(Record, if typeName == "" then "any" else typeName) && FieldsRead(s, [], fs)
  }

  /** The schemas in `ss` keep their names. */
  twostate predicate Unrenamed(ss: set<Schema>)
    reads ss
  {
    forall s :: s in ss ==> s.name == old(s.name)
  }

  /** The characters that start an inline modifier: `$`, `#` and `!`. */
  predicate ModifierStart(ch: char)
  {
    ch == '$' || ch == '#' || ch == '!'
  }

  /** The characters `_parse_meta` goes on at: a modifier, or `/` opening a comment or a block. */
  predicate MetaStart(ch: char)
  {
    ch == '/' || ModifierStart(ch)
  }

  /** The characters `_parse_node` reads as the start of a primitive value. */
  predicate ScalarStart(ch: char)
  {
    ch == '"' || IsDigit(ch) || ch == '-' || IsIdentStart(ch)
  }

  /** Where a block's items start: past its opening `/`, which `_expect` otherwise reports missing. */
  function BlockStart(text: string, i: nat): (j: nat)
    requires i <= |text|
    ensures j <= |text|
    ensures j == i + 1 <==> i < |text| && text[i] == '/'
    ensures j != i + 1 ==> j == i
  {
    if i < |text| && text[i] == '/' then i + 1 else i
  }

  /**
   * `_parse_meta_block`'s loop from `j`: the metadata it collects and where
   * it leaves the cursor, past the closing `/` or at the end of the text.
   */
  function MetaBlockFrom(text: string, j: nat, meta: MetaData): (r: (MetaData, nat))
    requires j <= |text|
    ensures j <= r.1 <= |text|
    decreases |text| - j
  {
    var k := SkipSpace(text, j);
    var item := Classify(text, k);
    if item == AtEnd then (meta, k)
    else if item == Close then (meta, k + 1)
    else
      var e := EntryAt(text, k, item, meta);
      MetaBlockFrom(text, e.1, e.0)
  }

  /** A block that starts at `j` and stops at `e` ends past its closing `/`, or at the end of the text. */
  predicate ClosedBlock(text: string, j: nat, e: nat)
  {
    e == |text| || (j < e <= |text| && text[e - 1] == '/')
  }

  /** The loop of a block stops only past a closing `/`, or at the end of the text. */
  lemma {:induction false} MetaBlockEnds(text: string, j: nat, meta: MetaData)
    requires j <= |text|
    ensures ClosedBlock(text, j, MetaBlockFrom(text, j, meta).1)
    decreases |text| - j
  {
    var k := SkipSpace(text, j);
    var item := Classify(text, k);
    var r := MetaBlockFrom(text, j, meta);
    if item == AtEnd {
      assert r.1 == |text|;
    } else if item == Close {
      assert r.1 == k + 1;
      assert ClosedBlock(text, j, k + 1);
    } else {
      var e := EntryAt(text, k, item, meta);
      assert r == MetaBlockFrom(text, e.1, e.0);
      MetaBlockEnds(text, e.1, e.0);
      assert ClosedBlock(text, e.1, r.1) && j < e.1;
    }
  }

  /**
   * A block only adds: the comments and tags collected before it stay in
   * front, a set `required` stays set, and an attribute already present
   * keeps its key.
   */
  lemma {:induction false} MetaBlockKeeps(text: string, j: nat, meta: MetaData)
    requires j <= |text|
    ensures var m := MetaBlockFrom(text, j, meta).0;
      && meta.comments <= m.comments && meta.tags <= m.tags
      && (meta.required ==> m.required) && Keys(meta.attr) <= Keys(m.attr)
    decreases |text| - j
  {
    var k := SkipSpace(text, j);
    var item := Classify(text, k);
    if item != AtEnd && item != Close {
      var e := EntryAt(text, k, item, meta);
      MetaBlockKeeps(text, e.1, e.0);
    }
  }

  /** Where a `/ ... /` block's metadata goes: the `obj` argument of `_parse_meta`. */
  datatype Target = NoTarget | ToNode(node: Node) | ToSchema(schema: Schema)

  /** The node a target lets `_parse_meta` change, if any. */
  function NodeTargets(t: Target): set<Node>
  {
    if t.ToNode? then {t.node} else {}
  }

  /** The schema a target lets `_parse_meta` change, if any. */
  function SchemaTargets(t: Target): set<Schema>
  {
    if t.ToSchema? then {t.schema} else {}
  }

  /** `PRIMITIVES_MAPPING`: the primitive names of a schema header, `int` and `float` read as `number`. */
  function PrimitiveName(name: string): Option<string>
  {
    if name == "int" || name == "float" then Some("number")
    else if name in {"string", "bool", "number", "null", "binary"} then Some(name)
    else None
  }

  /** Exactly seven names are primitive; `int` and `float` map to `number`, the others to themselves. */
  lemma PrimitiveNameMapping(name: string)
    ensures PrimitiveName(name).Some? <==> name in {"string", "bool", "number", "null", "int", "float", "binary"}
    ensures PrimitiveName(name).Some? ==> PrimitiveName(name).value in {"string", "bool", "number", "null", "binary"}
    ensures PrimitiveName(name).Some? && name != "int" && name != "float" ==> PrimitiveName(name).value == name
  {
  }

  /** The type name `_create_node` infers for a value other than None. */
  function InferredTypeName(v: Value): string
  {
    match v
    case Bool(_) => "bool"
    case Int(_) => "number"
    case Float(_) => "float"
    case _ => "string"
  }

  /** `_create_node`'s choice: keep the context schema, or take a fresh one of this shape. */
  datatype Choice = KeepContext | FreshShape(shape: Shape)

  /**
   * `_create_node`: a value adopts its inferred primitive schema unless the
   * context has the same type name, or is `number` and the value a float;
   * an `any` context always adopts.  None keeps a record or list context
   * and otherwise becomes a fresh `null` primitive.
   */
  function NodeSchemaChoice(ctx: Shape, v: Value): (c: Choice)
    ensures v != Null && ctx.kind == SchemaKind.Any ==> c == FreshShape(MkShape(Primitive, InferredTypeName(v)))
    ensures v != Null && ctx.kind != SchemaKind.Any ==>
      (c == KeepContext <==> ctx.typeName == InferredTypeName(v) || (ctx.typeName == "number" && v.Float?))
    ensures v != Null && c != KeepContext ==> c == FreshShape(MkShape(Primitive, InferredTypeName(v)))
    ensures v == Null ==> (c == KeepContext <==> ctx.kind == Record || ctx.kind == SchemaKind.List)
    ensures v == Null && c != KeepContext ==> c == FreshShape(MkShape(Primitive, "null"))
  {
    if v != Null then
      var inferred := InferredTypeName(v);
      if ctx.kind == SchemaKind.Any then FreshShape(MkShape(Primitive, inferred))
      else if ctx.typeName == inferred then KeepContext
      else if ctx.typeName == "number" && (inferred == "int" || inferred == "float") then KeepContext
      else FreshShape(MkShape(Primitive, inferred))
    else if ctx.kind == Record || ctx.kind == SchemaKind.List then KeepContext
    else FreshShape(MkShape(Primitive, "null"))
  }

  /**
   * The element shape `_parse_list` ends with, starting from `e`, when its
   * children come out with these shapes: while the element is `any` each
   * child's shape replaces it.
   */
  function SettleAll(e: Shape, children: seq<Shape>): Shape
    decreases |children|
  {
    if |children| == 0 then e
    else SettleAll(if e.IsAny() then children[0] else e, children[1..])
  }

  /** A concrete element is never replaced. */
  lemma {:induction false} SettledKeepsConcrete(e: Shape, children: seq<Shape>)
    requires !e.IsAny()
    ensures SettleAll(e, children) == e
    decreases |children|
  {
    if |children| > 0 {
      SettledKeepsConcrete(e, children[1..]);
    }
  }

  /** An `any` element settles on the first child whose shape is concrete. */
  lemma {:induction false} SettlesOnFirstConcrete(e: Shape, children: seq<Shape>, k: nat)
    requires e.IsAny() && k < |children| && !children[k].IsAny()
    requires forall j :: 0 <= j < k ==> children[j].IsAny()
    ensures SettleAll(e, children) == children[k]
    decreases k
  {
    if k == 0 {
      SettledKeepsConcrete(children[0], children[1..]);
    } else {
      SettlesOnFirstConcrete(children[0], children[1..], k - 1);
    }
  }

  /** Without a concrete child the element stays `any`: it is the last child's shape, or `e`. */
  lemma {:induction false} SettledStaysAny(e: Shape, children: seq<Shape>)
    requires e.IsAny() && forall j :: 0 <= j < |children| ==> children[j].IsAny()
    ensures SettleAll(e, children) == if |children| == 0 then e else children[|children| - 1]
    decreases |children|
  {
    if |children| > 0 {
      SettledStaysAny(children[0], children[1..]);
    }
  }

  /** The name `_parse_positional_record` stores the `index`-th value under: its predefined field's name, or `_index`. */
  function PositionalName(predefined: seq<Schema>, index: nat): string
    reads predefined`name
  {
    if index < |predefined| then predefined[index].name else "_" + IntToString(index)
  }

  /** Every value of `stored` from position `from` on is stored under `_k`, its own position. */
  predicate InferredNames(stored: OMap<string, Node>, from: nat)
  {
    forall k :: from <= k < |stored| ==> stored[k].0 == "_" + IntToString(k)
  }

  /** One more positional value keeps InferredNames when, past `from`, it goes under `_` and its position. */
  lemma InferredNamesSnoc(stored: OMap<string, Node>, from: nat, key: string, v: Node)
    requires InferredNames(stored, from) && (from <= |stored| ==> key == "_" + IntToString(|stored|))
    ensures InferredNames(stored + [(key, v)], from)
  {
    var longer := stored + [(key, v)];
    forall k | from <= k < |longer| ensures longer[k].0 == "_" + IntToString(k) {
      if k < |stored| {
        assert longer[k] == stored[k];
      } else {
        assert longer[k] == (key, v);
      }
    }
  }

  /**
   * A positional record read with no predefined fields stores its values
   * under `_0`, `_1`, ... in reading order, and its fields are exactly
   * those entries.
   */
  lemma {:induction false} PositionalWithoutFields(stored: OMap<string, Node>)
    requires InferredNames(stored, 0)
    ensures Update([], stored) == stored
  {
    assert Distinct(Keys(stored)) by {
      forall a, b | 0 <= a < b < |stored| ensures Keys(stored)[a] != Keys(stored)[b] {
        if Keys(stored)[a] == Keys(stored)[b] {
          assert "_" + IntToString(a) == "_" + IntToString(b);
          assert IntToString(a) == ("_" + IntToString(a))[1..];
          assert IntToString(b) == ("_" + IntToString(b))[1..];
          IntToStringInjective(a, b);
        }
      }
    }
    UpdateFromEmpty(stored);
  }

  /**
   * The key `_parse_named_record` reads at `j`: an identifier, else (at a
   * `"` after the whitespace) a quoted string, else none.
   */
  function RecordKeyAt(text: string, j: nat): (r: Option<string>)
    requires j <= |text|
    ensures r.Some? && IdentAt(text, j) != "" ==> r.value == IdentAt(text, j)
    ensures r.None? <==> IdentAt(text, j) == "" && !(SkipSpace(text, j) < |text| && text[SkipSpace(text, j)] == '"')
  {
    var k := SkipSpace(text, j);
    if IdentAt(text, j) != "" then Some(IdentAt(text, j))
    else if k < |text| && text[k] == '"' then Some(QuotedScan(text, k + 1, "").0)
    else None
  }

  /**
   * `schema` holds, after `fieldsList`/`fieldsMap`, one more field: a record
   * field called `name` (the field count when `name` is empty) of shape
   * `like`, with `element` as its element when it is a list.
   */
  ghost predicate Inferred(schema: Schema, fieldsList: seq<Schema>, fieldsMap: map<string, Schema>,
                           name: string, like: Shape, element: Schema?)
    reads schema, schema.fieldsList
  {
    && schema.kind == Record
    && |schema.fieldsList| == |fieldsList| + 1 && schema.fieldsList[..|fieldsList|] == fieldsList
    && var f := schema.fieldsList[|fieldsList|];
       && f.kind == like.kind && f.typeName == (if like.typeName == "" then "any" else like.typeName)
       && f.name == FieldName(name, |fieldsList|)
       && f.element == (if like.kind == SchemaKind.List then element else null)
       && schema.fieldsMap == fieldsMap[f.name := f]
  }

  /** The result of `decode`: the root node, its schema, and the diagnostics. */
  datatype DecodeResult = DecodeResult(node: Node, schema: Schema, errors: seq<Diagnostic>, warnings: seq<Diagnostic>)

  class Decoder {
    const text: string
    var i: nat
    var line: nat
    var col: nat
    /** `_pending_meta`: metadata read ahead of the object it will be applied to. */
    var pending: MetaData
    var nodeStack: seq<Node>
    var schemaStack: seq<Schema>
    var errors: seq<Diagnostic>
    var warnings: seq<Diagnostic>
    /** `named_schemas`: `@Name<...>` definitions of this decode. */
    var named: map<string, Schema>
    /** Every schema this decoder has made or handed out. */
    ghost var Schemas: set<Schema>

    /**
     * A schema's links stay among the decoder's schemas, a list schema has an
     * element, and no field is mapped under the empty name.
     */
    ghost predicate Closed(s: Schema)
      reads this`Schemas, s`kind, s`element, s`fieldsList, s`fieldsMap
    {
      && (s.kind == SchemaKind.List ==> s.element != null)
      && (s.element != null ==> s.element in Schemas)
      && (forall k :: 0 <= k < |s.fieldsList| ==> s.fieldsList[k] in Schemas)
      && (forall n :: n in s.fieldsMap ==> s.fieldsMap[n] in Schemas)
      && "" !in s.fieldsMap
    }

    ghost predicate Graph()
      reads this`Schemas, Schemas`kind, Schemas`element, Schemas`fieldsList, Schemas`fieldsMap
    {
      forall s {:trigger Closed(s)} :: s in Schemas ==> Closed(s)
    }

    ghost predicate Anchored()
      reads this`Schemas, this`schemaStack, this`named
    {
      && (forall k :: 0 <= k < |schemaStack| ==> schemaStack[k] in Schemas)
      && (forall n :: n in named ==> named[n] in Schemas)
    }

    ghost predicate Cursor()
      reads this`i, this`line, this`col
    {
      i <= |text| && line == LineAt(text, i) && col == ColAt(text, i)
    }

    /** What the character-level readers keep: the cursor and the error cap. */
    ghost predicate Lexer()
      reads this`i, this`line, this`col, this`errors
    {
      Cursor() && |errors| <= MaxErrors
    }

    ghost predicate Valid()
      reads this, Schemas
    {
      Lexer() && Anchored() && Graph()
    }

    /** `Decoder(text, schema)`: the schema text is read first, the cursor starts at 0. */
    constructor(text: string, schema: string)
      ensures Valid()
      ensures this.text == schema + text && i == 0
      ensures pending == EmptyMeta && nodeStack == [] && schemaStack == [] && named == map[]
      ensures errors == [] && warnings == [] && Schemas == {}
    {
      this.text := schema + text;
      i := 0;
      line := 0;
      col := 0;
      pending := EmptyMeta;
      nodeStack := [];
      schemaStack := [];
      errors := [];
      warnings := [];
      named := map[];
      Schemas := {};
    }

    /** `schema` property: the top of the schema stack. */
    function TopSchema(): (s: Schema?)
      reads this
      ensures s != null <==> |schemaStack| > 0
    {
      if |schemaStack| == 0 then null else schemaStack[|schemaStack| - 1]
    }

    /** `node` property: the top of the node stack. */
    function TopNode(): (n: Node?)
      reads this
      ensures n != null <==> |nodeStack| > 0
    {
      if |nodeStack| == 0 then null else nodeStack[|nodeStack| - 1]
    }

    function Peek(): Option<char>
      reads this
    {
      if i < |text| then Some(text[i]) else None
    }

    function PeekNext(): Option<char>
      reads this
    {
      if i + 1 < |text| then Some(text[i + 1]) else None
    }

    /**
     * `_advance(n)`: one character at a time, a newline moves to the next
     * line and column 1, anything else one column on; stops at the end.
     */
    method Advance(n: nat)
      requires Lexer()
      modifies this`i, this`line, this`col
      ensures Lexer()
      ensures i == Forward(text, old(i), n)
    {
      var k := 0;
      while k < n
        invariant 0 <= k <= n && Cursor() && old(i) <= i
        invariant i == Forward(text, old(i), k)
        decreases n - k
      {
        if i >= |text| {
          break;
        }
        if text[i] == '\n' {
          line := line + 1;
          col := 1;
        } else {
          col := col + 1;
        }
        i := i + 1;
        k := k + 1;
      }
    }

    /** `_add_error`: recorded at the cursor unless fifty errors are already recorded. */
    method AddError(msg: string)
      requires Lexer()
      modifies this`errors
      ensures Lexer()
      ensures errors == Logged(old(errors), Diagnostic(msg, i))
    {
      if |errors| >= MaxErrors {
        return;
      }
      errors := errors + [Diagnostic(msg, i)];
    }

    /** `_add_warning`: always recorded. */
    method AddWarning(msg: string)
      requires Lexer()
      modifies this`warnings
      ensures Lexer()
      ensures warnings == old(warnings) + [Diagnostic(msg, i)]
    {
      warnings := warnings + [Diagnostic(msg, i)];
    }

    /** `_skip_whitespace`: whitespace only, comments stay. */
    method SkipWhitespace()
      requires Lexer()
      modifies this`i, this`line, this`col
      ensures Lexer()
      ensures i == SkipSpace(text, old(i))
    {
      while i < |text| && IsSpace(text[i])
        invariant Lexer() && old(i) <= i
        invariant SkipSpace(text, i) == SkipSpace(text, old(i))
        decreases |text| - i
      {
        Advance(1);
      }
    }

    /** `_expect(c)`: consume `c`, or record an error and consume nothing. */
    method Expect(c: char) returns (ok: bool)
      requires Lexer()
      modifies this`i, this`line, this`col, this`errors
      ensures Lexer()
      ensures ok <==> old(i) < |text| && text[old(i)] == c
      ensures ok ==> i == old(i) + 1 && errors == old(errors)
      ensures !ok ==> i == old(i) && errors == Logged(old(errors), Diagnostic(ExpectMessage(c, text, i), i))
    {
      if Peek() != Some(c) {
        AddError(ExpectMessage(c, text, i));
        return false;
      }
      Advance(1);
      return true;
    }

    /** `_parse_ident`: whitespace, then `[a-zA-Z_][a-zA-Z0-9_]*`, or "" when none starts there. */
    method ParseIdent() returns (id: string)
      requires Lexer()
      modifies this`i, this`line, this`col
      ensures Lexer()
      ensures id == IdentAt(text, old(i)) && i == IdentAtEnd(text, old(i))
    {
      SkipWhitespace();
      var start := i;
      if i >= |text| || !IsIdentStart(text[i]) {
        return "";
      }
      Advance(1);
      while i < |text| && IsIdentChar(text[i])
        invariant Lexer() && start < i
        invariant IdentRest(text, i) == IdentRest(text, start + 1)
        decreases |text| - i
      {
        Advance(1);
      }
      id := text[start..i];
    }

    /**
     * `_read_quoted_string`: the opening quote, characters up to the closing
     * quote with `\n`, `\t`, `\r` decoded and any other escaped character
     * kept as is, then the closing quote.
     */
    method ReadQuotedString() returns (s: string)
      requires Lexer()
      modifies this`i, this`line, this`col, this`errors
      ensures Lexer()
      ensures var b := if old(i) < |text| && text[old(i)] == '"' then old(i) + 1 else old(i);
        && s == QuotedScan(text, b, "").0
        && i == (if QuotedScan(text, b, "").1 < |text| then QuotedScan(text, b, "").1 + 1 else |text|)
      ensures old(i) < |text| && text[old(i)] == '"' ==>
        if QuotedScan(text, old(i) + 1, "").1 < |text| then errors == old(errors)
        else errors == Logged(old(errors), Diagnostic(ExpectMessage('"', text, |text|), |text|))
    {
      var _ := Expect('"');
      ghost var b, e0 := i, errors;
      s := "";
      while i < |text|
        invariant Lexer() && b <= i && errors == e0
        invariant QuotedScan(text, i, s) == QuotedScan(text, b, "")
        decreases |text| - i
      {
        var ch := text[i];
        if ch == '"' {
          break;
        }
        if ch == '\\' {
          Advance(1);
          if i >= |text| {
            break;
          }
          var escaped := text[i];
          s := s + [Unescape(escaped)];
          Advance(1);
        } else {
          s := s + [ch];
          Advance(1);
        }
      }
      var _ := Expect('"');
    }

    /** Advance over a run of digits. */
    method SkipDigits()
      requires Lexer()
      modifies this`i, this`line, this`col
      ensures Lexer()
      ensures i == DigitsEnd(text, old(i))
    {
      while i < |text| && IsDigit(text[i])
        invariant Lexer() && old(i) <= i
        invariant DigitsEnd(text, i) == DigitsEnd(text, old(i))
        decreases |text| - i
      {
        Advance(1);
      }
    }

    /** The optional fraction of a number: `.` and digits. */
    method SkipFraction() returns (point: bool)
      requires Lexer()
      modifies this`i, this`line, this`col
      ensures Lexer()
      ensures point == HasPoint(text, old(i)) && i == FractionEnd(text, old(i))
    {
      point := false;
      if Peek() == Some('.') {
        point := true;
        Advance(1);
        SkipDigits();
      }
    }

    /** The optional exponent marker of a number and its sign. */
    method SkipExponentMarker() returns (exp: bool)
      requires Lexer()
      modifies this`i, this`line, this`col
      ensures Lexer()
      ensures exp == HasExp(text, old(i)) && i == ExponentStart(text, old(i))
    {
      exp := false;
      if Peek() == Some('e') || Peek() == Some('E') {
        exp := true;
        Advance(1);
        if Peek() == Some('+') || Peek() == Some('-') {
          Advance(1);
        }
      }
    }

    /** The scanning half of `_read_number`: the cursor moves over the number token. */
    method ScanNumber() returns (token: NumberToken)
      requires Lexer()
      modifies this`i, this`line, this`col
      ensures Lexer()
      ensures token == NumberScan(text, old(i)) && i == token.end
    {
      var start := i;
      if Peek() == Some('-') {
        Advance(1);
      }
      var a := i;
      SkipDigits();
      var b := i;
      var point := SkipFraction();
      var c := i;
      var exp := SkipExponentMarker();
      var d := i;
      if exp {
        SkipDigits();
      }
      token := NumberToken(start, a, b, point, c, exp, d, i);
    }

    /**
     * `_read_number`: an optional `-`, digits, an optional `.` and digits,
     * an optional exponent; `int` of the text read when neither a point nor
     * an exponent was seen, `float` of it otherwise, and 0 with an "Invalid
     * number format" error when it does not convert.
     */
    method ReadNumber() returns (v: Value)
      requires Lexer()
      modifies this`i, this`line, this`col, this`errors
      ensures Lexer()
      ensures v == NumberAt(text, old(i)) && i == NumberScan(text, old(i)).end
      ensures NumberValue(text, NumberScan(text, old(i))).Some? ==> errors == old(errors)
      ensures NumberValue(text, NumberScan(text, old(i))).None? ==>
        errors == Logged(old(errors), Diagnostic("Invalid number format: " + text[old(i)..i], i))
    {
      var start := i;
      var token := ScanNumber();
      var isFloat := token.hasPoint || token.hasExp;
      match NumberValue(text, token)
      case Some(value) =>
        v := value;
      case None =>
        AddError("Invalid number format: " + text[start..i]);
        v := Int(0);
    }

    /** `_parse_primitive_value`: the value of a `$key=value` attribute. */
    method ParsePrimitiveValue() returns (v: Value)
      requires Lexer()
      modifies this`i, this`line, this`col, this`errors
      ensures Lexer()
      ensures (v, i) == PrimitiveAt(text, old(i))
      ensures old(errors) <= errors
    {
      if i >= |text| {
        return Null;
      }
      var ch := text[i];
      if ch == '"' {
        var s := ReadQuotedString();
        return Str(s);
      }
      if IsDigit(ch) || ch == '-' {
        v := ReadNumber();
        return;
      }
      var raw := ParseIdent();
      return Keyword(raw);
    }

    /** One step of `_parse_comment_block`'s loop. */
    method CommentStep(depth: nat, content: string) returns (depth': nat, content': string)
      requires Lexer() && i < |text| && depth > 0
      modifies this`i, this`line, this`col
      ensures Lexer() && i > old(i)
      ensures CommentScan(text, i, depth', content') == CommentScan(text, old(i), depth, content)
    {
      var ch := text[i];
      depth', content' := depth, content;
      if ch == '\\' {
        Advance(1);
        if i < |text| {
          var escaped := text[i];
          Advance(1);
          content' := content + [escaped];
        }
      } else if ch == '/' && PeekNext() == Some('*') {
        depth' := depth + 1;
        Advance(2);
        content' := content + "/*";
      } else if ch == '*' && PeekNext() == Some('/') {
        depth' := depth - 1;
        Advance(2);
        if depth' > 0 {
          content' := content + "*/";
        }
      } else {
        content' := content + [ch];
        Advance(1);
      }
    }

    /**
     * `_parse_comment_block`: past `/*`, up to the matching `*/` (nested
     * pairs kept in the text, `\c` read as `c`), stripped; an error when the
     * text ends first.
     */
    method ParseCommentBlock() returns (c: string)
      requires Lexer()
      modifies this`i, this`line, this`col, this`errors
      ensures Lexer()
      ensures var r := CommentScan(text, Forward(text, old(i), 2), 1, "");
        && c == Strip(r.0) && i == r.1
        && errors == if r.2 > 0 then Logged(old(errors), Diagnostic(Unterminated, r.1)) else old(errors)
    {
      Advance(2);
      ghost var b := i;
      var depth: nat := 1;
      var content := "";
      while i < |text| && depth > 0
        invariant Lexer() && b <= i && errors == old(errors)
        invariant CommentScan(text, i, depth, content) == CommentScan(text, b, 1, "")
        decreases |text| - i
      {
        depth, content := CommentStep(depth, content);
      }
      if depth > 0 {
        AddError(Unterminated);
      }
      c := Strip(content);
    }

    /** `_parse_meta_attribute`: `$key` or `$key=value` into `meta`'s attributes. */
    method ParseMetaAttribute(meta: MetaData) returns (m: MetaData)
      requires Lexer()
      modifies this`i, this`line, this`col, this`errors
      ensures Lexer()
      ensures var r := AttributeAt(text, Forward(text, old(i), 1));
        m == meta.(attr := Put(meta.attr, r.0, r.1)) && i == r.2
    {
      Advance(1);
      var kv := ReadAttribute();
      m := meta.(attr := Put(meta.attr, kv.0, kv.1));
    }

    /** The `key` or `key=value` part of an attribute. */
    method ReadAttribute() returns (kv: (string, Value))
      requires Lexer()
      modifies this`i, this`line, this`col, this`errors
      ensures Lexer()
      ensures var r := AttributeAt(text, old(i)); kv == (r.0, r.1) && i == r.2
    {
      var key := ParseIdent();
      SkipWhitespace();
      var val := AttributeValue();
      kv := (key, val);
    }

    /** After the key: `=` and a primitive value, or True when no `=` follows. */
    method AttributeValue() returns (val: Value)
      requires Lexer()
      modifies this`i, this`line, this`col, this`errors
      ensures Lexer()
      ensures (val, i) == AttributeValueAt(text, old(i))
    {
      val := Bool(true);
      if Peek() == Some('=') {
        Advance(1);
        val := ParsePrimitiveValue();
      }
    }

    /** `_parse_meta_tag`: `#tag` appended to `meta`'s tags. */
    method ParseMetaTag(meta: MetaData) returns (m: MetaData)
      requires Lexer()
      modifies this`i, this`line, this`col
      ensures Lexer()
      ensures var j := Forward(text, old(i), 1);
        m == meta.(tags := meta.tags + [IdentAt(text, j)]) && i == IdentAtEnd(text, j)
    {
      Advance(1);
      var tag := ParseIdent();
      m := meta.(tags := meta.tags + [tag]);
    }

    /** `_parse_meta_flag`: `!required` sets the flag; any other flag is a warning. */
    method ParseMetaFlag(meta: MetaData) returns (m: MetaData)
      requires Lexer()
      modifies this`i, this`line, this`col, this`warnings
      ensures Lexer()
      ensures var j := Forward(text, old(i), 1); var flag := IdentAt(text, j);
        && i == IdentAtEnd(text, j)
        && (flag == "required" ==> m == meta.(required := true) && warnings == old(warnings))
        && (flag != "required" ==> m == meta && warnings == old(warnings) + [Diagnostic("Unknown flag: !" + flag, i)])
    {
      Advance(1);
      var flag := ParseIdent();
      if flag == "required" {
        m := meta.(required := true);
      } else {
        AddWarning("Unknown flag: !" + flag);
        m := meta;
      }
    }

    /** `_parse_modifier_inline`: a `$`, `#` or `!` modifier read into the pending metadata. */
    method ParseModifierInline()
      requires Lexer()
      modifies this`i, this`line, this`col, this`errors, this`warnings, this`pending
      ensures Lexer()
      ensures old(i) < |text| && ModifierStart(text[old(i)]) ==> (pending, i) == ModifierAt(text, old(i), old(pending))
      ensures !(old(i) < |text| && ModifierStart(text[old(i)])) ==> pending == old(pending) && i == Forward(text, old(i), 1)
    {
      if i < |text| && ModifierStart(text[i]) {
        pending := ReadModifier(pending);
      } else {
        Advance(1);
      }
    }

    /** A `$`, `#` or `!` modifier into `meta`, dispatched on its first character. */
    method ReadModifier(meta: MetaData) returns (m: MetaData)
      requires Lexer() && i < |text| && ModifierStart(text[i])
      modifies this`i, this`line, this`col, this`errors, this`warnings
      ensures Lexer()
      ensures (m, i) == ModifierAt(text, old(i), meta)
    {
      ghost var j := i;
      if text[i] == '$' {
        m := ParseMetaAttribute(meta);
        assert (m, i) == ModifierAt(text, j, meta);
      } else if text[i] == '#' {
        m := ParseMetaTag(meta);
        assert (m, i) == ModifierAt(text, j, meta);
      } else {
        m := ParseMetaFlag(meta);
        assert (m, i) == ModifierAt(text, j, meta);
      }
    }

    /** An implicit `key=value` inside a meta block: read like `$key=value`, with a warning. */
    method ImplicitAttribute(meta: MetaData) returns (m: MetaData)
      requires Lexer()
      modifies this`i, this`line, this`col, this`errors, this`warnings
      ensures Lexer()
      ensures var r := AttributeAt(text, old(i));
        && m == meta.(attr := Put(meta.attr, r.0, r.1)) && i == r.2
        && warnings == old(warnings) + [Diagnostic("Implicit attribute '" + r.0 + "'. Use '$" + r.0 + "' instead.", i)]
    {
      var kv := ReadAttribute();
      AddWarning("Implicit attribute '" + kv.0 + "'. Use '$" + kv.0 + "' instead.");
      m := meta.(attr := Put(meta.attr, kv.0, kv.1));
    }

    /**
     * One pass of `_parse_meta_block`'s loop: whitespace, then a comment, the
     * closing `/`, a modifier, an implicit attribute, or an unexpected
     * character (an error, skipped).  Done at the closing `/` or at the end
     * of the text.
     */
    method MetaBlockItem(meta: MetaData) returns (m: MetaData, done: bool)
      requires Lexer()
      modifies this`i, this`line, this`col, this`errors, this`warnings
      ensures Lexer()
      ensures done || i > old(i)
      ensures var j := SkipSpace(text, old(i)); var item := Classify(text, j);
        && (item == AtEnd ==> done && m == meta && i == j)
        && (item == Close ==> done && m == meta && i == j + 1)
        && (item != AtEnd && item != Close ==> !done && (m, i) == EntryAt(text, j, item, meta))
      ensures done ==> (m, i) == MetaBlockFrom(text, old(i), meta)
      ensures !done ==> MetaBlockFrom(text, i, m) == MetaBlockFrom(text, old(i), meta)
    {
      SkipWhitespace();
      var item := Classify(text, i);
      m, done := meta, true;
      if item == Close {
        Advance(1);
      } else if item != AtEnd {
        m := BlockEntry(item, meta);
        done := false;
      }
    }

    /**
     * A meta block entry other than its end: a comment, a modifier, an
     * implicit attribute, or an unexpected character (an error, skipped).
     */
    method BlockEntry(item: BlockItem, meta: MetaData) returns (m: MetaData)
      requires Lexer() && i <= |text| && item == Classify(text, i)
      requires item != AtEnd && item != Close
      modifies this`i, this`line, this`col, this`errors, this`warnings
      ensures Lexer()
      ensures (m, i) == EntryAt(text, old(i), item, meta)
    {
      if item == Comment {
        var c := ParseCommentBlock();
        m := meta.(comments := meta.comments + [c]);
      } else if item == Implicit {
        m := ImplicitAttribute(meta);
      } else if item == Unexpected {
        AddError("Unexpected token in meta block: " + [text[i]]);
        m := meta;
        Advance(1);
      } else {
        m := ReadModifier(meta);
      }
    }

    /** The `/ ... /` block itself: `/`, then items up to the closing `/` or the end of the text. */
    method ReadMetaBlock() returns (meta: MetaData)
      requires Lexer()
      modifies this`i, this`line, this`col, this`errors, this`warnings
      ensures Lexer()
      ensures (meta, i) == MetaBlockFrom(text, BlockStart(text, old(i)), EmptyMeta)
    {
      var _ := Expect('/');
      meta := EmptyMeta;
      ghost var r := MetaBlockFrom(text, i, EmptyMeta);
      assert i == BlockStart(text, old(i));
      while i < |text|
        invariant Lexer()
        invariant MetaBlockFrom(text, i, meta) == r
        decreases |text| - i
      {
        var done;
        meta, done := MetaBlockItem(meta);
        if done {
          assert (meta, i) == r;
          return;
        }
      }
      assert MetaBlockFrom(text, i, meta) == (meta, i);
    }

    /**
     * Where a meta block's data goes: onto the target, or, without one,
     * into the pending metadata with a warning.
     */
    method MetaOntoTarget(target: Target, meta: MetaData)
      requires Valid()
      modifies this`warnings, this`pending, NodeTargets(target)`comments, NodeTargets(target)`attr, NodeTargets(target)`tags,
        SchemaTargets(target)`comments, SchemaTargets(target)`attr, SchemaTargets(target)`tags, SchemaTargets(target)`required
      ensures Valid()
      ensures target.ToNode? ==> target.node.MetaContent() == ApplyCommon(old(target.node.MetaContent()), meta)
      ensures target.ToSchema? ==> (target.schema.MetaContent()
        == ApplyCommon(old(target.schema.MetaContent()), meta).(required := old(target.schema.required) || meta.required))
      ensures target.NoTarget? ==> (pending == ApplyInfo(old(pending), meta)
        && warnings == old(warnings) + [Diagnostic("There is no parent to add the meta block", i)])
      ensures !target.NoTarget? ==> pending == old(pending) && warnings == old(warnings)
    {
      match target
      case ToNode(n) =>
        MetaOntoNode(n, meta);
      case ToSchema(s) =>
        MetaOntoSchema(s, meta);
      case NoTarget =>
        AddWarning("There is no parent to add the meta block");
        pending := ApplyInfo(pending, meta);
    }

    /** `_parse_meta_block`: a `/ ... /` block, its data onto the target. */
    method ParseMetaBlock(target: Target)
      requires Valid()
      modifies this`i, this`line, this`col, this`errors, this`warnings, this`pending, NodeTargets(target)`comments, NodeTargets(target)`attr, NodeTargets(target)`tags,
        SchemaTargets(target)`comments, SchemaTargets(target)`attr, SchemaTargets(target)`tags, SchemaTargets(target)`required
      ensures Valid()
      ensures var r := MetaBlockFrom(text, BlockStart(text, old(i)), EmptyMeta);
        && i == r.1
        && (target.ToNode? ==> target.node.MetaContent() == ApplyCommon(old(target.node.MetaContent()), r.0))
        && (target.ToSchema? ==> (target.schema.MetaContent()
          == ApplyCommon(old(target.schema.MetaContent()), r.0).(required := old(target.schema.required) || r.0.required)))
        && (target.NoTarget? ==> pending == ApplyInfo(old(pending), r.0))
        && (!target.NoTarget? ==> pending == old(pending))
    {
      var meta := ReadMetaBlock();
      MetaOntoTarget(target, meta);
    }

    /** Metadata onto a node: the node's own data and the decoder's graph stay as they were. */
    method MetaOntoNode(n: Node, meta: MetaData)
      requires Valid()
      modifies n`comments, n`attr, n`tags
      ensures Valid()
      ensures n.MetaContent() == ApplyCommon(old(n.MetaContent()), meta)
      ensures n.schema == old(n.schema) && n.name == old(n.name) && n.value == old(n.value)
      ensures n.fields == old(n.fields) && n.elements == old(n.elements)
    {
      n.ApplyMeta(meta);
    }

    /** Metadata onto a schema: its shape, links and the decoder's graph stay as they were. */
    method MetaOntoSchema(s: Schema, meta: MetaData)
      requires Valid()
      modifies s`comments, s`attr, s`tags, s`required
      ensures Valid()
      ensures s.MetaContent() == ApplyCommon(old(s.MetaContent()), meta).(required := old(s.required) || meta.required)
      ensures s.Shape() == old(s.Shape()) && s.name == old(s.name) && s.element == old(s.element)
      ensures s.fieldsList == old(s.fieldsList) && s.fieldsMap == old(s.fieldsMap)
    {
      s.ApplyMeta(meta);
    }

    /** `_apply_meta(node)`: the pending metadata moves onto the node. */
    method ApplyPendingToNode(n: Node)
      requires Valid()
      modifies this`pending, n`comments, n`attr, n`tags
      ensures Valid() && pending == EmptyMeta
      ensures n.MetaContent() == ApplyCommon(old(n.MetaContent()), old(pending))
      ensures n.schema == old(n.schema) && n.name == old(n.name) && n.value == old(n.value)
      ensures n.fields == old(n.fields) && n.elements == old(n.elements)
    {
      MetaOntoNode(n, pending);
      pending := EmptyMeta;
    }

    /** `_apply_meta(schema)`: the pending metadata moves onto the schema. */
    method ApplyPendingToSchema(s: Schema)
      requires Valid()
      modifies this`pending, s`comments, s`attr, s`tags, s`required
      ensures Valid() && pending == EmptyMeta
      ensures s.MetaContent() == ApplyCommon(old(s.MetaContent()), old(pending)).(required := old(s.required) || old(pending).required)
      ensures s.Shape() == old(s.Shape()) && s.name == old(s.name) && s.element == old(s.element)
      ensures s.fieldsList == old(s.fieldsList) && s.fieldsMap == old(s.fieldsMap)
    {
      MetaOntoSchema(s, pending);
      pending := EmptyMeta;
    }

    /**
     * The items of `_parse_meta` that only read text: a block comment (kept
     * in the pending metadata) or an inline modifier; done at anything else.
     */
    method MetaLexItem() returns (done: bool)
      requires Lexer()
      modifies this`i, this`line, this`col, this`errors, this`warnings, this`pending
      ensures Lexer() && old(i) <= i
      ensures done || i > old(i)
      ensures !done <==> old(i) < |text| && (ModifierStart(text[old(i)]) || (text[old(i)] == '/' && old(i) + 1 < |text| && text[old(i) + 1] == '*'))
      ensures !done ==> (pending, i) == EntryAt(text, old(i), Classify(text, old(i)), old(pending))
      ensures done ==> pending == old(pending) && i == old(i)
    {
      var ch, next := Peek(), PeekNext();
      done := false;
      if ch == Some('/') && next == Some('*') {
        var c := ParseCommentBlock();
        pending := pending.(comments := pending.comments + [c]);
      } else if ch == Some('$') || ch == Some('#') || ch == Some('!') {
        ParseModifierInline();
      } else {
        done := true;
      }
    }

    /**
     * One pass of `_parse_meta`'s loop: whitespace, then a block comment, a
     * `/ ... /` block or an inline modifier; done at anything else.
     */
    method MetaItem(target: Target) returns (done: bool)
      requires Valid()
      modifies this`i, this`line, this`col, this`errors, this`warnings, this`pending, NodeTargets(target)`comments, NodeTargets(target)`attr, NodeTargets(target)`tags,
        SchemaTargets(target)`comments, SchemaTargets(target)`attr, SchemaTargets(target)`tags, SchemaTargets(target)`required
      ensures Valid() && old(i) <= i
      ensures done || i > old(i)
      ensures done ==> i == |text| || (!MetaStart(text[i]) && !IsSpace(text[i]))
      ensures var k := SkipSpace(text, old(i)); k < |text| && !MetaStart(text[k]) ==>
        done && i == k && pending == old(pending) && unchanged(SchemaTargets(target)) && unchanged(NodeTargets(target))
    {
      SkipWhitespace();
      if Peek() == Some('/') && PeekNext() != Some('*') {
        ParseMetaBlock(target);
        done := false;
      } else {
        done := MetaLexItem();
      }
    }

    /**
     * `_parse_meta`: whitespace, comments, meta blocks and modifiers in
     * front of (or after) a node or schema.
     */
    method ParseMeta(target: Target)
      requires Valid()
      modifies this`i, this`line, this`col, this`errors, this`warnings, this`pending, NodeTargets(target)`comments, NodeTargets(target)`attr, NodeTargets(target)`tags,
        SchemaTargets(target)`comments, SchemaTargets(target)`attr, SchemaTargets(target)`tags, SchemaTargets(target)`required
      ensures Valid() && old(i) <= i
      ensures i == |text| || (!MetaStart(text[i]) && !IsSpace(text[i]))
      ensures var k := SkipSpace(text, old(i)); k < |text| && !MetaStart(text[k]) ==>
        i == k && pending == old(pending) && unchanged(SchemaTargets(target)) && unchanged(NodeTargets(target))
    {
      ghost var k := SkipSpace(text, i);
      while i < |text|
        invariant Valid() && old(i) <= i
        invariant k < |text| && !MetaStart(text[k]) ==>
          i == old(i) && pending == old(pending) && unchanged(SchemaTargets(target)) && unchanged(NodeTargets(target))
        decreases |text| - i
      {
        var done := MetaItem(target);
        if done {
          break;
        }
      }
    }

    /** `_push_schema`. */
    method PushSchema(s: Schema)
      requires Valid() && s in Schemas
      modifies this`schemaStack
      ensures Valid() && schemaStack == old(schemaStack) + [s]
    {
      schemaStack := schemaStack + [s];
    }

    /** The schemas `_pop_schema` may change: the top of the stack and its element. */
    ghost function PopFrame(): set<Schema>
      reads this`schemaStack, this`Schemas, schemaStack
    {
      if |schemaStack| == 0 then {}
      else
        var s := schemaStack[|schemaStack| - 1];
        if s.element != null && s.element in Schemas then {s, s.element} else {s}
    }

    /**
     * `_pop_schema`: the top of the stack, or null when it is empty.  A
     * popped list takes over its element's metadata, which is then cleared.
     */
    method PopSchema() returns (s: Schema?)
      requires Valid()
      modifies this`schemaStack, PopFrame()`comments, PopFrame()`attr, PopFrame()`tags, PopFrame()`required
      ensures Valid()
      ensures old(|schemaStack|) == 0 ==> s == null && schemaStack == old(schemaStack)
      ensures old(|schemaStack|) > 0 ==> s == old(schemaStack[|schemaStack| - 1]) && schemaStack == old(schemaStack[..|schemaStack| - 1])
      ensures s != null ==> (s.Shape() == old(s.Shape()) && s.element == old(s.element)
        && s.fieldsList == old(s.fieldsList) && s.fieldsMap == old(s.fieldsMap))
      ensures s != null && !s.IsList() ==> s.MetaContent() == old(s.MetaContent())
      ensures s != null && s.IsList() ==> s.element != null
      ensures s != null && s.IsList() && s.element != null && s.element != s ==> (s.element.MetaContent() == EmptyMeta
        && s.MetaContent() == ApplyCommon(old(s.MetaContent()), old(s.element.MetaContent())).(required := old(s.required) || old(s.element.required)))
    {
      if |schemaStack| == 0 {
        return null;
      }
      s := schemaStack[|schemaStack| - 1];
      assert Closed(s);
      schemaStack := schemaStack[..|schemaStack| - 1];
      if s.IsList() {
        TakeElementMeta(s);
      }
    }

    /** A list schema takes over its element's metadata, which is then cleared. */
    method TakeElementMeta(s: Schema)
      requires Valid() && s in Schemas && s.IsList() && s.element != null
      modifies s`comments, s`attr, s`tags, s`required, s.element`comments, s.element`attr, s.element`tags, s.element`required
      ensures Valid()
      ensures s.Shape() == old(s.Shape()) && s.element == old(s.element)
      ensures s.fieldsList == old(s.fieldsList) && s.fieldsMap == old(s.fieldsMap)
      ensures s.element != s ==> (s.element.MetaContent() == EmptyMeta
        && s.MetaContent() == ApplyCommon(old(s.MetaContent()), old(s.element.MetaContent())).(required := old(s.required) || old(s.element.required)))
    {
      var e := s.element;
      MetaOntoSchema(s, e.MetaContent());
      e.ClearMeta();
    }

    /** `_push_node`. */
    method PushNode(n: Node)
      requires Valid()
      modifies this`nodeStack
      ensures Valid() && nodeStack == old(nodeStack) + [n]
    {
      nodeStack := nodeStack + [n];
    }

    /** `_pop_node`: the top of the stack, or null when it is empty. */
    method PopNode() returns (n: Node?)
      requires Valid()
      modifies this`nodeStack
      ensures Valid()
      ensures old(|nodeStack|) == 0 ==> n == null && nodeStack == old(nodeStack)
      ensures old(|nodeStack|) > 0 ==> n == old(nodeStack[|nodeStack| - 1]) && nodeStack == old(nodeStack[..|nodeStack| - 1])
    {
      if |nodeStack| == 0 {
        return null;
      }
      n := nodeStack[|nodeStack| - 1];
      nodeStack := nodeStack[..|nodeStack| - 1];
    }

    /** `Schema(kind, type_name=...)` made by the decoder: a new schema among its own. */
    method NewSchema(kind: SchemaKind, typeName: string) returns (s: Schema)
      requires Valid() && kind != SchemaKind.List
      modifies this`Schemas
      ensures Valid() && fresh(s) && Schemas == old(Schemas) + {s}
      ensures s.kind == kind && s.typeName == (if typeName == "" then "any" else typeName)
      ensures s.name == "" && s.element == null && s.fieldsList == [] && s.fieldsMap == map[]
      ensures s.MetaContent() == EmptyMeta
    {
      s := new Schema(kind, typeName, "", null);
      Schemas := Schemas + {s};
      forall t | t in Schemas ensures Closed(t) {
        if t != s {
          assert old(Closed(t));
        }
      }
    }

    /** `_create_schema`: a new schema takes the pending metadata and is pushed. */
    method CreateSchema(kind: SchemaKind, typeName: string) returns (s: Schema)
      requires Valid() && kind != SchemaKind.List
      modifies this`Schemas, this`schemaStack, this`pending
      ensures Valid() && fresh(s) && Schemas == old(Schemas) + {s}
      ensures schemaStack == old(schemaStack) + [s] && pending == EmptyMeta
      ensures s.kind == kind && s.typeName == (if typeName == "" then "any" else typeName)
      ensures s.name == "" && s.element == null && s.fieldsList == [] && s.fieldsMap == map[]
      ensures s.MetaContent() == ApplyCommon(EmptyMeta, old(pending)).(required := old(pending).required)
    {
      s := NewSchema(kind, typeName);
      ApplyPendingToSchema(s);
      PushSchema(s);
    }

    /**
     * The schema `_create_node` starts from: the top of the stack, or a
     * new `any` schema pushed when the stack is empty.
     */
    method ContextSchema() returns (ctx: Schema)
      requires Valid()
      modifies this`Schemas, this`schemaStack
      ensures Valid() && |schemaStack| > 0 && ctx == schemaStack[|schemaStack| - 1]
      ensures old(|schemaStack|) > 0 ==> ctx == old(schemaStack[|schemaStack| - 1]) && unchanged(this`schemaStack, this`Schemas)
      ensures old(|schemaStack|) == 0 ==> (fresh(ctx) && ctx.Shape() == MkShape(SchemaKind.Any, "any")
        && schemaStack == [ctx] && Schemas == old(Schemas) + {ctx})
    {
      if |schemaStack| == 0 {
        ctx := NewSchema(SchemaKind.Any, "");
        PushSchema(ctx);
      } else {
        ctx := schemaStack[|schemaStack| - 1];
      }
    }

    /** The schema `_create_node` gives a value in context `ctx`: `ctx` itself or a new primitive. */
    method NodeSchema(ctx: Schema, v: Value) returns (final: Schema)
      requires Valid() && ctx in Schemas
      modifies this`Schemas
      ensures Valid() && final in Schemas && old(Schemas) <= Schemas && Schemas - {final} <= old(Schemas)
      ensures match NodeSchemaChoice(old(ctx.Shape()), v)
        case KeepContext => final == ctx && Schemas == old(Schemas)
        case FreshShape(sh) => fresh(final) && final.Shape() == sh && final.fieldsList == []
    {
      match NodeSchemaChoice(ctx.Shape(), v) {
        case FreshShape(sh) =>
          final := NewSchema(sh.kind, sh.typeName);
        case KeepContext =>
          final := ctx;
      }
    }

    /** A new node of the decoder's with this schema and value; it takes the pending metadata and is pushed. */
    method PushNewNode(schema: Schema, v: Value) returns (node: Node)
      requires Valid() && schema in Schemas
      modifies this`nodeStack, this`pending
      ensures Valid() && fresh(node)
      ensures nodeStack == old(nodeStack) + [node] && pending == EmptyMeta
      ensures node.schema == schema && node.value == v && node.name == "" && node.fields == [] && node.elements == []
      ensures node.MetaContent() == ApplyCommon(EmptyMeta, old(pending))
    {
      node := new Node(schema, "", v, [], []);
      ApplyPendingToNode(node);
      PushNode(node);
    }

    /**
     * `_create_node(value)`: the node's schema follows `NodeSchemaChoice`
     * from the context schema; the node takes the pending metadata and is
     * pushed.
     */
    method CreateNode(v: Value) returns (node: Node)
      requires Valid()
      modifies this`Schemas, this`schemaStack, this`nodeStack, this`pending
      ensures Valid() && fresh(node) && node.schema in Schemas && old(Schemas) <= Schemas && fresh(Schemas - old(Schemas))
      ensures nodeStack == old(nodeStack) + [node] && pending == EmptyMeta
      ensures old(|schemaStack|) > 0 ==> schemaStack == old(schemaStack)
      ensures |schemaStack| > 0
      ensures node.value == v && node.name == "" && node.fields == [] && node.elements == []
      ensures node.MetaContent() == ApplyCommon(EmptyMeta, old(pending))
      ensures var ctx := if old(|schemaStack|) > 0 then old(schemaStack[|schemaStack| - 1].Shape()) else MkShape(SchemaKind.Any, "any");
        match NodeSchemaChoice(ctx, v)
        case KeepContext => node.schema == schemaStack[|schemaStack| - 1]
        case FreshShape(sh) => fresh(node.schema) && node.schema.Shape() == sh && node.schema.fieldsList == []
    {
      var ctx := ContextSchema();
      var final := NodeSchema(ctx, v);
      node := PushNewNode(final, v);
    }

    /** The `obj` of `_parse_meta(self.schema)`: the top of the schema stack, if any. */
    function TopTarget(): (t: Target)
      reads this`schemaStack
      ensures |schemaStack| > 0 ==> t == ToSchema(schemaStack[|schemaStack| - 1])
      ensures |schemaStack| == 0 ==> t == NoTarget
    {
      if |schemaStack| == 0 then NoTarget else ToSchema(schemaStack[|schemaStack| - 1])
    }

    /** Past `@` and the name after it (`@Name`). */
    method AtName() returns (name: string)
      requires Lexer() && i < |text|
      modifies this`i, this`line, this`col
      ensures Lexer() && i > old(i)
      ensures name == IdentAt(text, old(i) + 1) && i == IdentAtEnd(text, old(i) + 1)
    {
      Advance(1);
      name := ParseIdent();
    }

    /** `@Name` and the whitespace after it. */
    method AtRefName() returns (name: string)
      requires Lexer() && i < |text|
      modifies this`i, this`line, this`col
      ensures Lexer() && i > old(i)
      ensures name == IdentAt(text, old(i) + 1) && i == SkipSpace(text, IdentAtEnd(text, old(i) + 1))
    {
      name := AtName();
      SkipWhitespace();
    }

    /** An error, and the offending character skipped. */
    method ErrorAndSkip(msg: string)
      requires Lexer()
      modifies this`i, this`line, this`col, this`errors
      ensures Lexer() && i == Forward(text, old(i), 1)
      ensures errors == Logged(old(errors), Diagnostic(msg, old(i)))
    {
      AddError(msg);
      Advance(1);
    }

    /**
     * What `@name` stands for once the character after it is known: with a
     * body, the new definition registered under the name (a record unless
     * its body made it a list or a primitive); without one, the registered
     * schema or a new record placeholder, the registry as before.
     */
    twostate predicate AtTypeIs(new t: Schema, new name: string, new body: bool)
      reads this, t
    {
      if body then
        fresh(t) && name in named && named[name] == t && t.kind != SchemaKind.Any && (t.kind == Record || !t.IsAny())
      else if name in old(named) then
        t == old(named)[name] && named == old(named)
      else
        fresh(t) && t.Shape() == MkShape(Record, if name == "" then "any" else name) && named == old(named)
    }

    /**
     * What `@name` followed by position `k` gave: `AtTypeIs`, the cursor
     * back at `k` and the names of `before` kept when there is no body, and for a flat body `<...>` the
     * record of its fields with the cursor past `>`.
     */
    twostate predicate AtRead(new t: Schema, new name: string, new k: nat, before: set<Schema>)
      reads this, t, t.fieldsList, before
      requires k <= |text|
    {
      && AtTypeIs(t, name, k < |text| && text[k] == '<')
      && (!(k < |text| && text[k] == '<') ==> i == k && Unrenamed(before))
      && (k < |text| && text[k] == '<' ==> var r := FlatRest(text, k + 1, '>', false);
            r.Some? ==> i == r.value.1 && FlatRecord(t, name, r.value.0))
    }

    /**
     * What `_parse_schema_type` gives for the type starting at `k`: a new
     * list for `[`, what `@name` stands for, a new schema for `<...>`, or
     * what a bare name stands for (with the cursor after the name).
     */
    twostate predicate TypeRead(new t: Schema, new k: nat, before: set<Schema>)
      reads this, t, t.fieldsList, before
      requires k < |text|
    {
      && (text[k] == '[' ==> fresh(t) && t.kind == SchemaKind.List && t.fieldsList == [] && t.element != null && t.element in Schemas)
      && (text[k] == '@' ==> var j := SkipSpace(text, IdentAtEnd(text, k + 1));
            j < |text| && !MetaStart(text[j]) ==> AtRead(t, IdentAt(text, k + 1), j, before))
      && (text[k] == '<' ==> fresh(t) && t.kind != SchemaKind.Any)
      && (text[k] != '[' && text[k] != '@' && text[k] != '<' ==>
            i == IdentAtEnd(text, k) && NamedTypeIs(t, IdentAt(text, k), old(named)) && Unrenamed(before))
    }

    /**
     * `_parse_schema_at_ref`: past `@`, a name, then either a definition
     * `<...>` (registered under the name, a record unless it became a list
     * or primitive), a registered schema, or a new record placeholder.
     */
    method ParseSchemaAtRef() returns (schema: Schema)
      requires Valid() && i < |text|
      modifies this`i, this`line, this`col, this`errors, this`warnings, this`pending
      modifies this`Schemas, this`named, this`schemaStack, Schemas`name, Schemas`comments, Schemas`attr, Schemas`tags, Schemas`required
      ensures Valid() && old(Schemas) <= Schemas && fresh(Schemas - old(Schemas))
      ensures schemaStack == old(schemaStack) && old(i) <= i
      ensures schema in Schemas && i > old(i)
      ensures AtRead(schema, IdentAt(text, old(i) + 1), SkipSpace(text, IdentAtEnd(text, old(i) + 1)), old(Schemas))
      decreases |text| - i, 7
    {
      var name := AtRefName();
      schema := AtBody(name);
    }

    /** After `@name`: a definition when `<` is next, else a reference. */
    method AtBody(name: string) returns (schema: Schema)
      requires Valid()
      modifies this`i, this`line, this`col, this`errors, this`warnings, this`pending
      modifies this`Schemas, this`named, this`schemaStack, Schemas`name, Schemas`comments, Schemas`attr, Schemas`tags, Schemas`required
      ensures Valid() && old(Schemas) <= Schemas && fresh(Schemas - old(Schemas))
      ensures schemaStack == old(schemaStack) && old(i) <= i && schema in Schemas
      ensures AtRead(schema, name, old(i), old(Schemas))
      decreases |text| - i, 4
    {
      if Peek() == Some('<') {
        schema := Definition(name);
      } else {
        schema := Reference(name);
      }
    }

    /**
     * `@Name<...>`: the body, made a record when it came out `any`, and
     * registered under the name.
     */
    method Definition(name: string) returns (schema: Schema)
      requires Valid() && i < |text| && text[i] == '<'
      modifies this`i, this`line, this`col, this`errors, this`warnings, this`pending
      modifies this`Schemas, this`named, this`schemaStack, Schemas`name, Schemas`comments, Schemas`attr, Schemas`tags, Schemas`required
      ensures Valid() && old(Schemas) <= Schemas && fresh(Schemas - old(Schemas))
      ensures schemaStack == old(schemaStack) && old(i) <= i
      ensures schema in Schemas && i > old(i) && AtTypeIs(schema, name, true)
      ensures var r := FlatRest(text, old(i) + 1, '>', false);
        r.Some? ==> i == r.value.1 && FlatRecord(schema, name, r.value.0)
      decreases |text| - i, 3
    {
      schema := ParseSchemaBody(name);
      if schema.IsAny() {
        Retype(schema, Record, schema.typeName);
      }
      named := named[name := schema];
    }

    /** After `@name` without a body: the registered schema, or a new record placeholder. */
    method Reference(name: string) returns (schema: Schema)
      requires Valid()
      modifies this`Schemas
      ensures Valid() && schema in Schemas && old(Schemas) <= Schemas && fresh(Schemas - old(Schemas))
      ensures name in named ==> schema == named[name] && Schemas == old(Schemas)
      ensures name !in named ==> fresh(schema) && schema.Shape() == MkShape(Record, if name == "" then "any" else name)
      ensures Unrenamed(old(Schemas))
    {
      if name in named {
        schema := named[name];
      } else {
        schema := NewSchema(Record, name);
      }
    }

    /**
     * `_parse_schema_body`: a `<...>` block as a new schema (a record unless
     * its content says otherwise); without `<`, an error and a new `any`
     * schema.  Either way the schema takes the pending metadata and the
     * schema stack is as before.
     */
    method ParseSchemaBody(typeName: string) returns (schema: Schema)
      requires Valid()
      modifies this`i, this`line, this`col, this`errors, this`warnings, this`pending
      modifies this`Schemas, this`named, this`schemaStack, Schemas`name, Schemas`comments, Schemas`attr, Schemas`tags, Schemas`required
      ensures Valid() && old(Schemas) <= Schemas && fresh(Schemas - old(Schemas))
      ensures schemaStack == old(schemaStack) && old(i) <= i
      ensures schema in Schemas && fresh(schema)
      ensures old(i) < |text| && text[old(i)] == '<' ==> i > old(i) && schema.kind != SchemaKind.Any
      ensures old(i) < |text| && text[old(i)] == '<' ==> var r := FlatRest(text, old(i) + 1, '>', false);
        r.Some? ==> i == r.value.1 && FlatRecord(schema, typeName, r.value.0)
      ensures !(old(i) < |text| && text[old(i)] == '<') ==>
        schema.Shape() == MkShape(SchemaKind.Any, if typeName == "" then "any" else typeName)
      decreases |text| - i, 2
    {
      ghost var opens := i < |text| && text[i] == '<';
      var ok := Expect('<');
      if !ok {
        assert !opens;
        schema := DetachedSchema(typeName);
        return;
      }
      ghost var k := i;
      assert opens && k == old(i) + 1;
      schema := RecordBody(typeName);
      assert var r := FlatRest(text, k, '>', false); r.Some? ==> i == r.value.1 && FlatRecord(schema, typeName, r.value.0);
    }

    /** Past the `<`: a new record schema, its content read up to `>`. */
    method RecordBody(typeName: string) returns (schema: Schema)
      requires Valid()
      modifies this`i, this`line, this`col, this`errors, this`warnings, this`pending
      modifies this`Schemas, this`named, this`schemaStack, Schemas`name, Schemas`comments, Schemas`attr, Schemas`tags, Schemas`required
      ensures Valid() && old(Schemas) <= Schemas && fresh(Schemas - old(Schemas))
      ensures schemaStack == old(schemaStack) && old(i) <= i
      ensures schema in Schemas && fresh(schema) && schema.kind != SchemaKind.Any
      ensures var r := FlatRest(text, old(i), '>', false);
        r.Some? ==> i == r.value.1 && FlatRecord(schema, typeName, r.value.0)
      decreases |text| - i, 7
    {
      schema := CreateSchema(Record, typeName);
      ghost var k := i;
      ParseSchemaBodyContent(schema, '>');
      ghost var r := FlatRest(text, k, '>', false);
      ghost var fs := if r.Some? then r.value.0 else [];
      CloseBody(schema, typeName, fs);
    }

    /** The body's schema popped off the stack again, its fields as they were read. */
    method CloseBody(schema: Schema, ghost typeName: string, ghost fs: seq<(string, string)>)
      requires Valid() && |schemaStack| > 0 && schemaStack[|schemaStack| - 1] == schema
      modifies this`schemaStack, PopFrame()`comments, PopFrame()`attr, PopFrame()`tags, PopFrame()`required
      ensures Valid() && schemaStack == old(schemaStack[..|schemaStack| - 1])
      ensures schema.Shape() == old(schema.Shape())
      ensures old(FieldsSoFar(schema, [], Record, if typeName == "" then "any" else typeName, fs)) ==> FlatRecord(schema, typeName, fs)
    {
      var _ := PopSchema();
    }

    /** `_create_schema(ANY, type_name)` popped again at once: a new `any` schema with the pending metadata. */
    method DetachedSchema(typeName: string) returns (schema: Schema)
      requires Valid()
      modifies this`Schemas, this`schemaStack, this`pending
      ensures Valid() && fresh(schema) && Schemas == old(Schemas) + {schema} && schemaStack == old(schemaStack)
      ensures schema.Shape() == MkShape(SchemaKind.Any, if typeName == "" then "any" else typeName)
      ensures pending == EmptyMeta
    {
      schema := CreateSchema(SchemaKind.Any, typeName);
      var _ := PopSchema();
    }

    /** The fields `before` keep their names, kinds and type names (`schema` itself aside). */
    twostate predicate FieldsKept(schema: Schema, before: seq<Schema>)
      reads before
    {
      forall g :: g in before && g != schema ==> g.name == old(g.name) && g.kind == old(g.kind) && g.typeName == old(g.typeName)
    }

    /**
     * What one pass of the content loop did to `schema`'s fields: `read`
     * (none or one) appended, typed as read; the schema a record once it
     * has a field.
     */
    ghost predicate ItemFields(schema: Schema, fields0: seq<Schema>, kind0: SchemaKind, typeName0: string, read: seq<(string, string)>)
      reads schema, schema.fieldsList
    {
      && FieldsRead(schema, fields0, read) && schema.typeName == typeName0
      && schema.kind == (if read == [] then kind0 else Record)
    }

    /** The fields read before the step. */
    twostate predicate ReadBefore(schema: Schema, new fields0: seq<Schema>, new kind0: SchemaKind, new typeName0: string, new done: seq<(string, string)>)
    {
      old(allocated(fields0)) && old(allocated(done)) && old(FieldsSoFar(schema, fields0, kind0, typeName0, done))
    }

    /**
     * The fields the content loop has read so far: `done` appended after
     * `fields0`, the schema's own kind kept until the first of them.
     */
    twostate lemma FieldsStep(schema: Schema, new fields0: seq<Schema>, new kind0: SchemaKind, new typeName0: string,
      new done: seq<(string, string)>, new read: seq<(string, string)>)
      requires ReadBefore(schema, fields0, kind0, typeName0, done) && ItemFields(schema, old(schema.fieldsList), old(schema.kind), old(schema.typeName), read)
      requires FieldsKept(schema, old(schema.fieldsList))
      ensures FieldsSoFar(schema, fields0, kind0, typeName0, done + read)
    {
      forall j | |fields0| <= j < |fields0| + |done|
        ensures schema.fieldsList[j] == old(schema.fieldsList[j])
      {
      }
    }

    /**
     * `_parse_schema_body_content`: the fields (or list element) of a
     * schema up to `endChar`.  The schema stack is as before.
     */
    method ParseSchemaBodyContent(schema: Schema, endChar: char)
      requires Valid() && schema in Schemas
      modifies this`i, this`line, this`col, this`errors, this`warnings, this`pending
      modifies this`Schemas, this`named, this`schemaStack, Schemas`name, Schemas`comments, Schemas`attr, Schemas`tags, Schemas`required, schema
      ensures Valid() && old(Schemas) <= Schemas && fresh(Schemas - old(Schemas))
      ensures schemaStack == old(schemaStack) && old(i) <= i
      ensures || (schema.kind == SchemaKind.List && schema.fieldsList == [] && schema.element != null && fresh(schema.element))
              || Extends(schema.fieldsList, old(schema.fieldsList))
      ensures schema.kind == SchemaKind.Any ==> old(schema.kind) == SchemaKind.Any
      ensures var r := FlatRest(text, old(i), endChar, false); r.Some? ==>
        i == r.value.1 && FieldsSoFar(schema, old(schema.fieldsList), old(schema.kind), old(schema.typeName), r.value.0)
      decreases |text| - i, 6
    {
      var field: Schema? := null;
      // The flat reading so far: the fields `done` of `whole`, and whether
      // the last thing read was a field (a comma or the end comes next).
      ghost var fields0, kind0, typeName0 := schema.fieldsList, schema.kind, schema.typeName;
      ghost var whole := FlatRest(text, i, endChar, false);
      ghost var done: seq<(string, string)> := [];
      ghost var after := false;
      while i < |text|
        invariant Valid() && old(i) <= i && schema in Schemas
        invariant old(Schemas) <= Schemas && fresh(Schemas - old(Schemas))
        invariant schemaStack == old(schemaStack)
        invariant field != null ==> field in Schemas
        invariant Extends(schema.fieldsList, fields0)
        invariant schema.kind == SchemaKind.Any ==> kind0 == SchemaKind.Any
        invariant Reading(schema, endChar, fields0, kind0, typeName0, whole, done, after)
        decreases |text| - i
      {
        var stop, listed;
        field, stop, listed, done, after := ContentPass(schema, endChar, field, fields0, kind0, typeName0, whole, done, after);
        if listed {
          return;
        }
        if stop {
          break;
        }
      }
      assert whole.Some? ==> i == whole.value.1 && FieldsSoFar(schema, fields0, kind0, typeName0, whole.value.0);
      ghost var fs := if whole.Some? then whole.value.0 else [];
      ContentTail(schema, field, fields0, kind0, typeName0, fs);
    }

    /**
     * The content loop's invariant over a flat body `whole`: the fields
     * `done` read so far are its first ones, appended after `fields0`, and
     * the reading goes on from the cursor to the rest of it.
     */
    ghost predicate Reading(schema: Schema, endChar: char, fields0: seq<Schema>, kind0: SchemaKind, typeName0: string,
      whole: Option<(seq<(string, string)>, nat)>, done: seq<(string, string)>, after: bool)
      reads this, schema, schema.fieldsList
    {
      whole.Some? ==>
        && i <= |text| && |done| <= |whole.value.0| && done == whole.value.0[..|done|]
        && FlatRest(text, i, endChar, after) == Some((whole.value.0[|done|..], whole.value.1))
        && FieldsSoFar(schema, fields0, kind0, typeName0, done)
    }

    /** The content's end: the pending metadata goes to the last field, or to the schema when it has none. */
    method ContentTail(schema: Schema, field: Schema?, ghost fields0: seq<Schema>, ghost kind0: SchemaKind, ghost typeName0: string, ghost fs: seq<(string, string)>)
      requires Valid()
      modifies this`pending, schema`comments, schema`attr, schema`tags, schema`required
      modifies if field != null then {field} else {}`comments, if field != null then {field} else {}`attr
      modifies if field != null then {field} else {}`tags, if field != null then {field} else {}`required
      ensures Valid() && pending == EmptyMeta
      ensures old(FieldsSoFar(schema, fields0, kind0, typeName0, fs)) ==> FieldsSoFar(schema, fields0, kind0, typeName0, fs)
    {
      ApplyPendingToSchema(if field != null then field else schema);
    }

    /**
     * One pass of the content loop with its flat reading: the invariant
     * kept, or (at the end character) every field of the body read.
     */
    method ContentPass(schema: Schema, endChar: char, field: Schema?, ghost fields0: seq<Schema>, ghost kind0: SchemaKind, ghost typeName0: string,
      ghost whole: Option<(seq<(string, string)>, nat)>, ghost done: seq<(string, string)>, ghost after: bool)
      returns (field': Schema?, stop: bool, listed: bool, ghost done': seq<(string, string)>, ghost after': bool)
      requires Valid() && schema in Schemas && (field != null ==> field in Schemas)
      requires i < |text| && Reading(schema, endChar, fields0, kind0, typeName0, whole, done, after)
      modifies this`i, this`line, this`col, this`errors, this`warnings, this`pending
      modifies this`Schemas, this`named, this`schemaStack, Schemas`name, Schemas`comments, Schemas`attr, Schemas`tags, Schemas`required, schema
      ensures Valid() && old(Schemas) <= Schemas && fresh(Schemas - old(Schemas))
      ensures schemaStack == old(schemaStack) && old(i) < i && (field' != null ==> field' in Schemas)
      ensures listed ==> schema.kind == SchemaKind.List && schema.fieldsList == [] && schema.element != null && fresh(schema.element) && whole.None?
      ensures !listed ==> Extends(schema.fieldsList, old(schema.fieldsList)) && (schema.kind == SchemaKind.Any ==> old(schema.kind) == SchemaKind.Any)
      ensures !stop ==> Reading(schema, endChar, fields0, kind0, typeName0, whole, done', after')
      ensures stop && whole.Some? ==> i == whole.value.1 && FieldsSoFar(schema, fields0, kind0, typeName0, whole.value.0)
      decreases |text| - i, 5
    {
      ghost var k := i;
      ghost var read;
      field', stop, listed, after', read := BodyItem(schema, endChar, field, after);
      done' := done + read;
      if whole.Some? {
        FlatStep(text, k, i, endChar, whole.value.0, whole.value.1, done, after, after', read, stop);
        FieldsStep(schema, fields0, kind0, typeName0, done, read);
      }
    }

    /**
     * One pass of the content loop: the metadata, then the end character
     * (stop), `[` (the list case, which ends the content), or an entry.
     */
    method BodyItem(schema: Schema, endChar: char, field: Schema?, ghost after: bool)
      returns (field': Schema?, stop: bool, listed: bool, ghost after': bool, ghost read: seq<(string, string)>)
      requires Valid() && schema in Schemas && (field != null ==> field in Schemas)
      requires i < |text|
      modifies this`i, this`line, this`col, this`errors, this`warnings, this`pending
      modifies this`Schemas, this`named, this`schemaStack, Schemas`name, Schemas`comments, Schemas`attr, Schemas`tags, Schemas`required, schema
      ensures Valid() && old(Schemas) <= Schemas && fresh(Schemas - old(Schemas))
      ensures schemaStack == old(schemaStack) && old(i) <= i
      ensures i > old(i) && (field' != null ==> field' in Schemas)
      ensures listed ==> schema.kind == SchemaKind.List && schema.fieldsList == [] && schema.element != null && fresh(schema.element)
      ensures !listed ==> Extends(schema.fieldsList, old(schema.fieldsList)) && (schema.kind == SchemaKind.Any ==> old(schema.kind) == SchemaKind.Any)
      ensures FlatRest(text, old(i), endChar, after).Some? ==> !listed && ItemFlat(text, old(i), i, endChar, after, after', read, stop) && ItemFields(schema, old(schema.fieldsList), old(schema.kind), old(schema.typeName), read)
      ensures FlatRest(text, old(i), endChar, after).Some? ==> Unrenamed(old(Schemas))
      decreases |text| - i, 4
    {
      ItemMeta(schema, endChar, after);
      field', stop, listed, after', read := ItemAt(schema, endChar, field, after);
    }

    /**
     * The metadata before an item, for `schema`.  Where a flat body is
     * read there is none, and the flat reading goes on from the first
     * character after the whitespace.
     */
    method ItemMeta(schema: Schema, ghost endChar: char, ghost after: bool)
      requires Valid() && schema in Schemas && i < |text|
      modifies this`i, this`line, this`col, this`errors, this`warnings, this`pending
      modifies schema`comments, schema`attr, schema`tags, schema`required
      ensures Valid() && old(i) <= i
      ensures schema.fieldsList == old(schema.fieldsList) && schema.kind == old(schema.kind) && schema.typeName == old(schema.typeName)
      ensures FlatRest(text, old(i), endChar, after).Some? ==>
        i == SkipSpace(text, old(i)) && SkipSpace(text, i) == i && FlatRest(text, i, endChar, after) == FlatRest(text, old(i), endChar, after)
    {
      ghost var k := i;
      if FlatRest(text, k, endChar, after).Some? {
        FlatRestStart(text, k, endChar, after);
      }
      ParseMeta(ToSchema(schema));
    }

    /** `[` in the content: the list element schema read up to `]`. */
    method ListedItem(schema: Schema, endChar: char)
      requires Valid() && schema in Schemas && i < |text| && text[i] == '['
      modifies this`i, this`line, this`col, this`errors, this`warnings, this`pending
      modifies this`Schemas, this`named, this`schemaStack, Schemas`name, Schemas`comments, Schemas`attr, Schemas`tags, Schemas`required, schema
      ensures Valid() && old(Schemas) <= Schemas && fresh(Schemas - old(Schemas))
      ensures schemaStack == old(schemaStack) && old(i) < i
      ensures schema.kind == SchemaKind.List && schema.fieldsList == [] && schema.element != null && fresh(schema.element)
      decreases |text| - i, 2
    {
      Advance(1);
      ListContent(schema, endChar);
    }

    /**
     * The rest of a pass, at the cursor: the end character (stop), `[`
     * (the list case, which ends the content), or an entry.
     */
    method ItemAt(schema: Schema, endChar: char, field: Schema?, ghost after: bool)
      returns (field': Schema?, stop: bool, listed: bool, ghost after': bool, ghost read: seq<(string, string)>)
      requires Valid() && schema in Schemas && (field != null ==> field in Schemas)
      modifies this`i, this`line, this`col, this`errors, this`warnings, this`pending
      modifies this`Schemas, this`named, this`schemaStack, Schemas`name, Schemas`comments, Schemas`attr, Schemas`tags, Schemas`required, schema
      ensures Valid() && old(Schemas) <= Schemas && fresh(Schemas - old(Schemas))
      ensures schemaStack == old(schemaStack) && old(i) <= i
      ensures (old(i) < |text| ==> i > old(i)) && (field' != null ==> field' in Schemas)
      ensures listed ==> schema.kind == SchemaKind.List && schema.fieldsList == [] && schema.element != null && fresh(schema.element)
      ensures !listed ==> Extends(schema.fieldsList, old(schema.fieldsList)) && (schema.kind == SchemaKind.Any ==> old(schema.kind) == SchemaKind.Any)
      ensures FlatRest(text, old(i), endChar, after).Some? && SkipSpace(text, old(i)) == old(i) ==> !listed && ItemFlat(text, old(i), i, endChar, after, after', read, stop) && ItemFields(schema, old(schema.fieldsList), old(schema.kind), old(schema.typeName), read)
      ensures FlatRest(text, old(i), endChar, after).Some? && SkipSpace(text, old(i)) == old(i) ==> Unrenamed(old(Schemas))
      decreases |text| - i, 3
    {
      ghost var k := i;
      if FlatRest(text, k, endChar, after).Some? && SkipSpace(text, k) == k {
        FlatAtCursor(text, k, endChar, after);
      }
      var ch := Peek();
      after', read := after, [];
      if ch == Some(endChar) {
        Advance(1);
        field', stop, listed := field, true, false;
      } else if ch == Some('[') {
        ListedItem(schema, endChar);
        field', stop, listed := field, false, true;
      } else {
        field', after', read := BodyEntry(schema, endChar, field, after);
        stop, listed := false, false;
      }
    }

    /** A comma after a field, passed with nothing else changed, is a step of the flat reading. */
    twostate lemma CommaStep(schema: Schema, new k: nat, new endChar: char)
      requires k < |text| && FlatRest(text, k, endChar, true).Some? && text[k] != endChar && i == k + 1
      requires schema.fieldsList == old(schema.fieldsList) && schema.Shape() == old(schema.Shape())
      ensures ItemFlat(text, k, i, endChar, true, false, [], false) && ItemFields(schema, old(schema.fieldsList), old(schema.kind), old(schema.typeName), [])
    {
    }

    /** An entry read at `k` where a flat body has a field is that step of the flat reading. */
    twostate lemma NameStep(schema: Schema, new k: nat, new endChar: char, new field: Schema?, new field': Schema?, new before: set<Schema>)
      requires old(allocated(before)) && i <= |text|
      requires k < |text| && FlatRest(text, k, endChar, false).Some? && SkipSpace(text, k) == k && text[k] != endChar
      requires NameEntryRead(schema, k, field, field') && FlatEntryRead(schema, k, before)
      ensures FieldAt(text, k).Some?
      ensures ItemFlat(text, k, i, endChar, false, true, [FieldAt(text, k).value.0], false) && ItemFields(schema, old(schema.fieldsList), old(schema.kind), old(schema.typeName), [FieldAt(text, k).value.0]) && Unrenamed(before)
    {
      FlatRestStart(text, k, endChar, false);
      FieldStep(schema, k, endChar);
    }

    /** A field at `k`, appended as read with the cursor after it, is a step of the flat reading. */
    twostate lemma FieldStep(schema: Schema, new k: nat, new endChar: char)
      requires k < |text| && FlatRest(text, k, endChar, false).Some? && SkipSpace(text, k) == k && text[k] != endChar
      requires FieldAt(text, k).Some? && i == FieldAt(text, k).value.1
      requires FieldsRead(schema, old(schema.fieldsList), [FieldAt(text, k).value.0])
      requires schema.kind == Record && schema.typeName == old(schema.typeName)
      ensures ItemFlat(text, k, i, endChar, false, true, [FieldAt(text, k).value.0], false) && ItemFields(schema, old(schema.fieldsList), old(schema.kind), old(schema.typeName), [FieldAt(text, k).value.0])
    {
      FlatRestStart(text, k, endChar, false);
      var r := FlatRest(text, k, endChar, false).value;
      var rest := FlatRest(text, i, endChar, true).value;
      assert r.0[..1] == [FieldAt(text, k).value.0] && r.0[1..] == rest.0;
    }

    /**
     * An entry of the content: a comma (the pending metadata goes to the
     * last field, or to the schema before any field), else an entry
     * starting with a name.  Read as a step of a flat body from the
     * cursor (just after a field when `after`), a comma passed or one
     * field appended (`read`).
     */
    method BodyEntry(schema: Schema, endChar: char, field: Schema?, ghost after: bool)
      returns (field': Schema?, ghost after': bool, ghost read: seq<(string, string)>)
      requires Valid() && schema in Schemas && (field != null ==> field in Schemas)
      modifies this`i, this`line, this`col, this`errors, this`warnings, this`pending
      modifies this`Schemas, this`named, this`schemaStack, Schemas`name, Schemas`comments, Schemas`attr, Schemas`tags, Schemas`required, schema
      ensures Valid() && old(Schemas) <= Schemas && fresh(Schemas - old(Schemas))
      ensures schemaStack == old(schemaStack) && old(i) <= i
      ensures (old(i) < |text| ==> i > old(i)) && (field' != null ==> field' in Schemas)
      ensures Extends(schema.fieldsList, old(schema.fieldsList)) && (schema.kind == SchemaKind.Any ==> old(schema.kind) == SchemaKind.Any)
      ensures old(i) < |text| && text[old(i)] == ',' ==>
        && field' == field && i == old(i) + 1 && pending == EmptyMeta
        && schema.Shape() == old(schema.Shape()) && schema.fieldsList == old(schema.fieldsList) && Unrenamed(old(Schemas))
        && var last := if field != null then field else schema;
           last.MetaContent() == ApplyCommon(old(last.MetaContent()), old(pending)).(required := old(last.required) || old(pending).required)
      ensures !(old(i) < |text| && text[old(i)] == ',') ==> NameEntryRead(schema, old(i), field, field') && FlatEntryRead(schema, old(i), old(Schemas))
      ensures FlatRest(text, old(i), endChar, after).Some? && SkipSpace(text, old(i)) == old(i) && old(i) < |text| && text[old(i)] != endChar ==>
        ItemFlat(text, old(i), i, endChar, after, after', read, false) && ItemFields(schema, old(schema.fieldsList), old(schema.kind), old(schema.typeName), read) && Unrenamed(old(Schemas))
      decreases |text| - i, 2
    {
      ghost var k := i;
      ghost var flat := FlatRest(text, k, endChar, after).Some? && SkipSpace(text, k) == k && k < |text| && text[k] != endChar;
      if flat {
        FlatCommaAfterField(text, k, endChar, after);
      }
      after', read := !after, [];
      if Peek() == Some(',') {
        field' := field;
        CommaEntry(schema, endChar, field, after);
      } else {
        field', read := NameCase(schema, endChar, field, after);
      }
    }

    /**
     * An entry starting with a name; as a step of a flat body (a field
     * expected, not a comma) it is the field `read`.
     */
    method NameCase(schema: Schema, endChar: char, field: Schema?, ghost after: bool)
      returns (field': Schema?, ghost read: seq<(string, string)>)
      requires Valid() && schema in Schemas && (field != null ==> field in Schemas)
      modifies this`i, this`line, this`col, this`errors, this`warnings, this`pending
      modifies this`Schemas, this`named, this`schemaStack, Schemas`name, Schemas`comments, Schemas`attr, Schemas`tags, Schemas`required, schema
      ensures Valid() && old(Schemas) <= Schemas && fresh(Schemas - old(Schemas))
      ensures schemaStack == old(schemaStack) && old(i) <= i
      ensures (old(i) < |text| ==> i > old(i)) && (field' != null ==> field' in Schemas)
      ensures Extends(schema.fieldsList, old(schema.fieldsList)) && (schema.kind == SchemaKind.Any ==> old(schema.kind) == SchemaKind.Any)
      ensures NameEntryRead(schema, old(i), field, field') && FlatEntryRead(schema, old(i), old(Schemas))
      ensures FlatRest(text, old(i), endChar, false).Some? && SkipSpace(text, old(i)) == old(i) && old(i) < |text| && text[old(i)] != endChar && !after ==>
        ItemFlat(text, old(i), i, endChar, false, true, read, false) && ItemFields(schema, old(schema.fieldsList), old(schema.kind), old(schema.typeName), read) && Unrenamed(old(Schemas))
      decreases |text| - i, 1
    {
      ghost var k := i;
      field' := NameEntry(schema, field);
      read := [];
      if !after && FieldAt(text, k).Some? {
        read := [FieldAt(text, k).value.0];
      }
      if FlatRest(text, k, endChar, false).Some? && SkipSpace(text, k) == k && k < |text| && text[k] != endChar && !after {
        NameStep(schema, k, endChar, field, field', old(Schemas));
      }
    }

    /**
     * A comma of the content: the pending metadata goes to the last
     * field, or to the schema before any field; as a step of a flat body
     * it is the separator expected just after a field.
     */
    method CommaEntry(schema: Schema, endChar: char, field: Schema?, ghost after: bool)
      requires Valid() && schema in Schemas && (field != null ==> field in Schemas)
      requires i < |text| && text[i] == ','
      modifies this`i, this`line, this`col, this`pending
      modifies {if field != null then field else schema}`comments, {if field != null then field else schema}`attr
      modifies {if field != null then field else schema}`tags, {if field != null then field else schema}`required
      ensures Valid() && i == old(i) + 1 && pending == EmptyMeta && unchanged(this`Schemas, this`errors, this`warnings)
      ensures schema.Shape() == old(schema.Shape()) && schema.fieldsList == old(schema.fieldsList) && Unrenamed(old(Schemas))
      ensures var last := if field != null then field else schema;
        last.MetaContent() == ApplyCommon(old(last.MetaContent()), old(pending)).(required := old(last.required) || old(pending).required)
      ensures FlatRest(text, old(i), endChar, after).Some? && SkipSpace(text, old(i)) == old(i) && after && endChar != ',' ==>
        ItemFlat(text, old(i), i, endChar, true, false, [], false) && ItemFields(schema, old(schema.fieldsList), old(schema.kind), old(schema.typeName), [])
    {
      ghost var k := i;
      Separator(if field != null then field else schema);
      if FlatRest(text, k, endChar, after).Some? && SkipSpace(text, k) == k && after && endChar != ',' {
        CommaStep(schema, k, endChar);
      }
    }

    /**
     * What an entry starting at `k` did to `schema`: for no name, nothing
     * but an error; for a primitive name standing alone (no `:` after
     * it), the schema became that primitive; else a field of that name
     * was appended (`field'`).
     */
    twostate predicate NameEntryRead(schema: Schema, new k: nat, new field: Schema?, new field': Schema?)
      reads this, schema, field'
      requires k <= |text|
    {
      var name := IdentAt(text, k); var j := SkipSpace(text, IdentAtEnd(text, k));
      && (name == "" ==>
            && field' == field && schema.Shape() == old(schema.Shape()) && schema.fieldsList == old(schema.fieldsList)
            && errors == Logged(old(errors), Diagnostic("Expected identifier", IdentAtEnd(text, k))))
      && (name != "" && PrimitiveName(name).Some? && !(j < |text| && text[j] == ':') ==>
            && field' == field && i == j && schema.fieldsList == old(schema.fieldsList)
            && schema.Shape() == MkShape(Primitive, PrimitiveName(name).value))
      && (name != "" && (PrimitiveName(name).None? || (j < |text| && text[j] == ':')) ==>
            && field' != null && schema.kind == Record && schema.typeName == old(schema.typeName)
            && schema.fieldsList == old(schema.fieldsList) + [field'] && field'.name == name)
    }

    /**
     * A field `name: primitive` at `k`, with neither metadata nor the end
     * of the text after it: the cursor is after it, no schema was renamed,
     * and that one field was appended.
     */
    twostate predicate FlatEntryRead(schema: Schema, new k: nat, before: set<Schema>)
      reads this, schema, schema.fieldsList, before
      requires k <= |text|
    {
      var f := FieldAt(text, k);
      f.Some? && f.value.1 < |text| && !MetaStart(text[f.value.1]) ==>
        i == f.value.1 && Unrenamed(before) && FieldsRead(schema, old(schema.fieldsList), [f.value.0])
    }

    /** An entry starting with a name: an error, a primitive retype, or a field. */
    method NameEntry(schema: Schema, field: Schema?) returns (field': Schema?)
      requires Valid() && schema in Schemas && (field != null ==> field in Schemas)
      modifies this`i, this`line, this`col, this`errors, this`warnings, this`pending
      modifies this`Schemas, this`named, this`schemaStack, Schemas`name, Schemas`comments, Schemas`attr, Schemas`tags, Schemas`required, schema
      ensures Valid() && old(Schemas) <= Schemas && fresh(Schemas - old(Schemas))
      ensures schemaStack == old(schemaStack) && old(i) <= i
      ensures (old(i) < |text| ==> i > old(i)) && (field' != null ==> field' in Schemas)
      ensures Extends(schema.fieldsList, old(schema.fieldsList)) && (schema.kind == SchemaKind.Any ==> old(schema.kind) == SchemaKind.Any)
      ensures NameEntryRead(schema, old(i), field, field') && FlatEntryRead(schema, old(i), old(Schemas))
      decreases |text| - i, 0
    {
      field' := field;
      ghost var k := i;
      var name := EntryName();
      if name == "" {
        return;
      }
      field' := NameRest(schema, field, k, name);
    }

    /** Past the entry's name (read at `k`): a primitive standing alone, else a field. */
    method NameRest(schema: Schema, field: Schema?, ghost k: nat, name: string) returns (field': Schema?)
      requires Valid() && schema in Schemas && (field != null ==> field in Schemas)
      requires k <= |text| && name == IdentAt(text, k) != "" && i == SkipSpace(text, IdentAtEnd(text, k))
      modifies this`i, this`line, this`col, this`errors, this`warnings, this`pending
      modifies this`Schemas, this`named, this`schemaStack, Schemas`name, Schemas`comments, Schemas`attr, Schemas`tags, Schemas`required, schema
      ensures Valid() && old(Schemas) <= Schemas && fresh(Schemas - old(Schemas))
      ensures schemaStack == old(schemaStack) && old(i) <= i && (field' != null ==> field' in Schemas)
      ensures Extends(schema.fieldsList, old(schema.fieldsList)) && (schema.kind == SchemaKind.Any ==> old(schema.kind) == SchemaKind.Any)
      ensures NameEntryRead(schema, k, field, field') && FlatEntryRead(schema, k, old(Schemas))
      decreases |text| - i, 2
    {
      field' := field;
      var primitive := PrimitiveName(name);
      if primitive.Some? && Peek() != Some(':') {
        Retype(schema, Primitive, primitive.value);
      } else {
        field' := FieldEntry(schema, name);
      }
    }

    /** A comma between entries: the pending metadata goes to `last`, and the comma is skipped. */
    method Separator(last: Schema)
      requires Valid() && last in Schemas && i < |text|
      modifies this`i, this`line, this`col, this`pending, last`comments, last`attr, last`tags, last`required
      ensures Valid() && i == old(i) + 1 && pending == EmptyMeta
      ensures last.MetaContent() == ApplyCommon(old(last.MetaContent()), old(pending)).(required := old(last.required) || old(pending).required)
    {
      ApplyPendingToSchema(last);
      Advance(1);
    }

    /**
     * The name of an entry with the whitespace after it; an error (and the
     * character skipped) when there is no identifier.
     */
    method EntryName() returns (name: string)
      requires Lexer()
      modifies this`i, this`line, this`col, this`errors
      ensures Lexer() && old(i) <= i && (old(i) < |text| ==> i > old(i))
      ensures name == IdentAt(text, old(i))
      ensures name != "" ==> i == SkipSpace(text, IdentAtEnd(text, old(i))) && errors == old(errors)
      ensures name == "" ==> errors == Logged(old(errors), Diagnostic("Expected identifier", IdentAtEnd(text, old(i))))
    {
      name := ParseIdent();
      if name == "" {
        ErrorAndSkip("Expected identifier");
      } else {
        SkipWhitespace();
      }
    }

    /** A field after its name: its type, trailing metadata, then `add_field`. */
    method FieldEntry(schema: Schema, name: string) returns (field: Schema)
      requires Valid() && schema in Schemas && name != ""
      modifies this`i, this`line, this`col, this`errors, this`warnings, this`pending
      modifies this`Schemas, this`named, this`schemaStack, Schemas`name, Schemas`comments, Schemas`attr, Schemas`tags, Schemas`required, schema
      ensures Valid() && old(Schemas) <= Schemas && fresh(Schemas - old(Schemas))
      ensures schemaStack == old(schemaStack) && old(i) <= i
      ensures field in Schemas
      ensures schema.kind == Record && schema.typeName == old(schema.typeName)
      ensures schema.fieldsList == old(schema.fieldsList) + [field] && field.name == name
      ensures var t := PrimitiveTypeAt(text, old(i)); t.Some? ==> var e := SkipSpace(text, t.value.1);
        e < |text| && !MetaStart(text[e]) ==>
          i == e && fresh(field) && field.Shape() == MkShape(Primitive, t.value.0) && Unrenamed(old(Schemas))
          && FieldsRead(schema, old(schema.fieldsList), [(name, t.value.0)])
      decreases |text| - i, 1
    {
      field := FieldDefinition(name);
      FieldTail(schema, field);
    }

    /**
     * After a field's type: the metadata that follows it, applied to the
     * field, and the field appended to `schema`.
     */
    method FieldTail(schema: Schema, field: Schema)
      requires Valid() && schema in Schemas && field in Schemas && field.name != ""
      modifies this`i, this`line, this`col, this`errors, this`warnings, this`pending
      modifies schema, field`name, field`comments, field`attr, field`tags, field`required
      ensures Valid() && Schemas == old(Schemas) && schemaStack == old(schemaStack) && old(i) <= i
      ensures schema.kind == Record && schema.typeName == old(schema.typeName)
      ensures schema.fieldsList == old(schema.fieldsList) + [field] && field.name == old(field.name)
      ensures var e := SkipSpace(text, old(i)); e < |text| && !MetaStart(text[e]) && field != schema ==>
        && i == e && field.Shape() == old(field.Shape()) && Unrenamed(old(Schemas))
        && (field.kind == Primitive ==> FieldsRead(schema, old(schema.fieldsList), [(field.name, field.typeName)]))
    {
      ParseMeta(ToSchema(schema));
      AppendField(schema, field);
    }

    /** The pending metadata applied to `field`, and `field` appended to `schema`. */
    method AppendField(schema: Schema, field: Schema)
      requires Valid() && schema in Schemas && field in Schemas && field.name != ""
      modifies this`pending, schema, field`name, field`comments, field`attr, field`tags, field`required
      ensures Valid() && pending == EmptyMeta
      ensures schema.kind == Record && schema.typeName == old(schema.typeName)
      ensures schema.fieldsList == old(schema.fieldsList) + [field] && field.name == old(field.name)
      ensures field != schema ==> field.Shape() == old(field.Shape()) && schema.name == old(schema.name)
      ensures field != schema && field.kind == Primitive ==> FieldsRead(schema, old(schema.fieldsList), [(field.name, field.typeName)])
    {
      ApplyPendingToSchema(field);
      AddFieldTo(schema, field);
      if field.kind == Primitive {
        FieldsReadOne(schema, old(schema.fieldsList), field);
      }
    }

    /**
     * A field `name: type` or a bare `name` (an `any` primitive): the
     * field schema is named and takes the pending metadata.
     */
    method FieldDefinition(name: string) returns (field: Schema)
      requires Valid()
      modifies this`i, this`line, this`col, this`errors, this`warnings, this`pending
      modifies this`Schemas, this`named, this`schemaStack, Schemas`name, Schemas`comments, Schemas`attr, Schemas`tags, Schemas`required
      ensures Valid() && old(Schemas) <= Schemas && fresh(Schemas - old(Schemas))
      ensures schemaStack == old(schemaStack) && old(i) <= i
      ensures field in Schemas && field.name == name && pending == EmptyMeta
      ensures !(old(i) < |text| && text[old(i)] == ':') ==>
        && i == old(i) && fresh(field) && field.Shape() == MkShape(Primitive, "any") && Unrenamed(old(Schemas))
        && field.MetaContent() == ApplyCommon(EmptyMeta, old(pending)).(required := old(pending).required)
      ensures old(i) < |text| && text[old(i)] == ':' ==> var k := SkipSpace(text, old(i) + 1);
        k < |text| && IsIdentStart(text[k]) ==> i == IdentAtEnd(text, k) && NamedTypeIs(field, IdentAt(text, k), old(named))
      ensures var t := PrimitiveTypeAt(text, old(i));
        t.Some? ==> i == t.value.1 && fresh(field) && field.Shape() == MkShape(Primitive, t.value.0) && Unrenamed(old(Schemas))
      decreases |text| - i, 0
    {
      if Peek() == Some(':') {
        Advance(1);
        field := ParseSchemaType();
      } else {
        field := NewSchema(Primitive, "any");
      }
      NameField(field, name);
    }

    /** `field.name = name`, then the pending metadata onto the field. */
    method NameField(field: Schema, name: string)
      requires Valid() && field in Schemas
      modifies field`name, field`comments, field`attr, field`tags, field`required, this`pending
      ensures Valid() && field.name == name && pending == EmptyMeta
      ensures field.MetaContent() == ApplyCommon(old(field.MetaContent()), old(pending)).(required := old(field.required) || old(pending).required)
      ensures field.Shape() == old(field.Shape()) && field.element == old(field.element)
      ensures field.fieldsList == old(field.fieldsList) && field.fieldsMap == old(field.fieldsMap)
    {
      field.name := name;
      ApplyPendingToSchema(field);
    }

    /** `schema.kind = ...; schema.type_name = ...` on one of the decoder's schemas (not to a list). */
    method Retype(schema: Schema, kind: SchemaKind, typeName: string)
      requires Valid() && schema in Schemas && kind != SchemaKind.List
      modifies schema`kind, schema`typeName
      ensures Valid() && schema.kind == kind && schema.typeName == typeName
    {
      schema.kind := kind;
      schema.typeName := typeName;
      forall t | t in Schemas ensures Closed(t) { assert old(Closed(t)); }
    }

    /** `schema.add_field(field)` between two of the decoder's schemas. */
    method AddFieldTo(schema: Schema, field: Schema)
      requires Valid() && schema in Schemas && field in Schemas
      modifies schema, field`name
      ensures Valid()
      ensures schema.kind == Record && field.name == FieldName(old(field.name), |old(schema.fieldsList)|)
      ensures schema.fieldsList == old(schema.fieldsList) + [field]
      ensures schema.fieldsMap == old(schema.fieldsMap)[field.name := field]
      ensures schema.typeName == old(schema.typeName) && schema.element == old(schema.element)
      ensures field != schema ==> schema.name == old(schema.name)
    {
      schema.AddField(field);
      forall t | t in Schemas ensures Closed(t) { assert old(Closed(t)); }
    }

    /** One of the decoder's schemas becomes a list of `element`, without fields. */
    method MakeList(schema: Schema, element: Schema)
      requires Valid() && schema in Schemas && element in Schemas
      modifies schema`kind, schema`fieldsList, schema`fieldsMap, schema`element
      ensures Valid() && schema.kind == SchemaKind.List && schema.element == element
      ensures schema.fieldsList == [] && schema.fieldsMap == map[]
    {
      schema.kind := SchemaKind.List;
      schema.fieldsList := [];
      schema.fieldsMap := map[];
      schema.element := element;
      forall t | t in Schemas ensures Closed(t) { assert old(Closed(t)); }
    }

    /**
     * `< [ ... ] >`: the schema becomes a list with no fields, takes the
     * pending metadata, and its element is read up to `]`; then trailing
     * metadata and the end character.
     */
    method ListContent(schema: Schema, endChar: char)
      requires Valid() && schema in Schemas
      modifies this`i, this`line, this`col, this`errors, this`warnings, this`pending
      modifies this`Schemas, this`named, this`schemaStack, Schemas`name, Schemas`comments, Schemas`attr, Schemas`tags, Schemas`required, schema
      ensures Valid() && old(Schemas) <= Schemas && fresh(Schemas - old(Schemas))
      ensures schemaStack == old(schemaStack) && old(i) <= i
      ensures schema.kind == SchemaKind.List && schema.fieldsList == [] && schema.fieldsMap == map[]
      ensures schema.typeName == old(schema.typeName) && schema.element != null && fresh(schema.element)
      ensures var r := FlatRest(text, old(i), ']', false); r.Some? ==>
        && FieldsRead(schema.element, [], r.value.0)
        && schema.element.Shape() == MkShape(if |r.value.0| == 0 then SchemaKind.Any else Record, "any")
      decreases |text| - i, 7
    {
      // The element is attached before its content is read; nothing
      // reads it in between.
      var element := ListOfAny(schema);
      ParseSchemaBodyContent(element, ']');
      ListTail(schema, endChar);
    }

    /** The list case's start: a new `any` element, the schema made a list of it, the pending metadata applied. */
    method ListOfAny(schema: Schema) returns (element: Schema)
      requires Valid() && schema in Schemas
      modifies this`Schemas, this`pending, schema
      ensures Valid() && element in Schemas && fresh(element) && Schemas == old(Schemas) + {element}
      ensures schema.kind == SchemaKind.List && schema.element == element && pending == EmptyMeta
      ensures schema.fieldsList == [] && schema.fieldsMap == map[] && schema.typeName == old(schema.typeName)
      ensures element.Shape() == MkShape(SchemaKind.Any, "any") && element.fieldsList == []
    {
      element := NewSchema(SchemaKind.Any, "");
      MakeList(schema, element);
      ApplyPendingToSchema(schema);
    }

    /** The list case's end: trailing metadata, the end character if present, the pending metadata applied. */
    method ListTail(schema: Schema, endChar: char)
      requires Valid() && schema in Schemas
      modifies this`i, this`line, this`col, this`errors, this`warnings, this`pending
      modifies schema`comments, schema`attr, schema`tags, schema`required
      ensures Valid() && old(i) <= i && pending == EmptyMeta
      ensures var k := SkipSpace(text, old(i)); k < |text| && !MetaStart(text[k]) ==>
        && i == (if text[k] == endChar then k + 1 else k)
        && schema.MetaContent() == ApplyCommon(old(schema.MetaContent()), old(pending)).(required := old(schema.required) || old(pending).required)
    {
      ParseMeta(ToSchema(schema));
      if Peek() == Some(endChar) {
        Advance(1);
      }
      ApplyPendingToSchema(schema);
    }

    /**
     * `_parse_schema_type`: after the metadata, `[type]` (a list), `@Name`
     * with or without a body, an anonymous `<...>`, or a name: a primitive,
     * a registered schema, `any` when empty, or a record placeholder.
     */
    method ParseSchemaType() returns (t: Schema)
      requires Valid()
      modifies this`i, this`line, this`col, this`errors, this`warnings, this`pending
      modifies this`Schemas, this`named, this`schemaStack, Schemas`name, Schemas`comments, Schemas`attr, Schemas`tags, Schemas`required
      ensures Valid() && old(Schemas) <= Schemas && fresh(Schemas - old(Schemas))
      ensures schemaStack == old(schemaStack) && old(i) <= i
      ensures t in Schemas
      ensures var k := SkipSpace(text, old(i)); k < |text| && !MetaStart(text[k]) ==> TypeRead(t, k, old(Schemas))
      decreases |text| - i, 6
    {
      ParseMeta(TopTarget());
      t := TypeDispatch();
    }

    /** The type after its metadata, by its first character. */
    method TypeDispatch() returns (t: Schema)
      requires Valid()
      modifies this`i, this`line, this`col, this`errors, this`warnings, this`pending
      modifies this`Schemas, this`named, this`schemaStack, Schemas`name, Schemas`comments, Schemas`attr, Schemas`tags, Schemas`required
      ensures Valid() && old(Schemas) <= Schemas && fresh(Schemas - old(Schemas))
      ensures schemaStack == old(schemaStack) && old(i) <= i
      ensures t in Schemas && (old(i) < |text| ==> TypeRead(t, old(i), old(Schemas)))
      decreases |text| - i, 5
    {
      var ch := Peek();
      if ch == Some('[') {
        Advance(1);
        t := ListType();
      } else if ch == Some('@') {
        t := RefType();
      } else if ch == Some('<') {
        t := ParseSchemaBody("");
      } else {
        t := NamedType();
      }
    }

    /** `@Name` as a type: a definition when `<` follows the metadata, else a reference. */
    method RefType() returns (t: Schema)
      requires Valid() && i < |text|
      modifies this`i, this`line, this`col, this`errors, this`warnings, this`pending
      modifies this`Schemas, this`named, this`schemaStack, Schemas`name, Schemas`comments, Schemas`attr, Schemas`tags, Schemas`required
      ensures Valid() && old(Schemas) <= Schemas && fresh(Schemas - old(Schemas))
      ensures schemaStack == old(schemaStack) && old(i) <= i
      ensures t in Schemas && i > old(i)
      ensures var name := IdentAt(text, old(i) + 1); var j := SkipSpace(text, IdentAtEnd(text, old(i) + 1));
        j < |text| && !MetaStart(text[j]) ==> AtRead(t, name, j, old(Schemas))
      decreases |text| - i, 4
    {
      var name := AtName();
      t := AtRest(name);
    }

    /** After `@Name`: the metadata before the body, then the body (or the reference). */
    method AtRest(name: string) returns (t: Schema)
      requires Valid()
      modifies this`i, this`line, this`col, this`errors, this`warnings, this`pending
      modifies this`Schemas, this`named, this`schemaStack, Schemas`name, Schemas`comments, Schemas`attr, Schemas`tags, Schemas`required
      ensures Valid() && old(Schemas) <= Schemas && fresh(Schemas - old(Schemas))
      ensures schemaStack == old(schemaStack) && old(i) <= i && t in Schemas
      ensures var j := SkipSpace(text, old(i)); j < |text| && !MetaStart(text[j]) ==> AtRead(t, name, j, old(Schemas))
      decreases |text| - i, 5
    {
      ghost var j := SkipSpace(text, i);
      ghost var plain := j < |text| && !MetaStart(text[j]);
      ghost var S0, reg := Schemas, named;
      AtMeta();
      assert plain ==> i == j;
      assert Schemas == S0 && named == reg;
      t := AtBody(name);
    }

    /** The metadata after `@Name`, for the schema being read; none where the body or the data follows at once. */
    method AtMeta()
      requires Valid()
      modifies this`i, this`line, this`col, this`errors, this`warnings, this`pending
      modifies SchemaTargets(TopTarget())`comments, SchemaTargets(TopTarget())`attr, SchemaTargets(TopTarget())`tags, SchemaTargets(TopTarget())`required
      ensures Valid() && old(i) <= i
      ensures var j := SkipSpace(text, old(i)); j < |text| && !MetaStart(text[j]) ==> i == j
    {
      ParseMeta(TopTarget());
    }

    /** `[type]`: a list schema with the pending metadata, its element the type read next, then `]`. */
    method ListType() returns (lst: Schema)
      requires Valid()
      modifies this`i, this`line, this`col, this`errors, this`warnings, this`pending
      modifies this`Schemas, this`named, this`schemaStack, Schemas`name, Schemas`comments, Schemas`attr, Schemas`tags, Schemas`required
      ensures Valid() && old(Schemas) <= Schemas && fresh(Schemas - old(Schemas))
      ensures schemaStack == old(schemaStack) && old(i) <= i
      ensures lst in Schemas && fresh(lst) && lst.kind == SchemaKind.List
      ensures lst.fieldsList == [] && lst.element != null && lst.element in Schemas
      ensures var k := SkipSpace(text, old(i)); k < |text| && !MetaStart(text[k]) && text[k] != '[' && text[k] != '@' && text[k] != '<' ==>
        NamedTypeIs(lst.element, IdentAt(text, k), old(named))
      decreases |text| - i, 7
    {
      lst := PendingList();
      var element := ParseSchemaType();
      CloseListType(lst, element);
    }

    /** The end of `[type]`: the list joins the decoder's schemas with its element, then `]` is expected. */
    method CloseListType(lst: Schema, element: Schema)
      requires Valid() && lst !in Schemas && element in Schemas
      requires lst.fieldsList == [] && lst.fieldsMap == map[]
      modifies this`Schemas, lst`element, this`i, this`line, this`col, this`errors
      ensures Valid() && Schemas == old(Schemas) + {lst} && lst.element == element && old(i) <= i
    {
      Adopt(lst, element);
      var _ := Expect(']');
    }

    /** `Schema(LIST)` with the pending metadata applied; it joins the decoder's schemas once it has an element. */
    method PendingList() returns (lst: Schema)
      modifies this`pending
      ensures fresh(lst) && lst.kind == SchemaKind.List && lst.element == null
      ensures lst.fieldsList == [] && lst.fieldsMap == map[] && pending == EmptyMeta
      ensures lst.MetaContent() == ApplyCommon(EmptyMeta, old(pending)).(required := old(pending).required)
    {
      lst := new Schema(SchemaKind.List, "", "", null);
      lst.ApplyMeta(pending);
      pending := EmptyMeta;
    }

    /** A list schema made outside the decoder's own joins them once its element is set. */
    method Adopt(lst: Schema, element: Schema)
      requires Valid() && lst !in Schemas && element in Schemas
      requires lst.fieldsList == [] && lst.fieldsMap == map[]
      modifies this`Schemas, lst`element
      ensures Valid() && Schemas == old(Schemas) + {lst} && lst.element == element
    {
      lst.element := element;
      Schemas := Schemas + {lst};
      forall t | t in Schemas ensures Closed(t) {
        if t != lst {
          assert old(Closed(t));
        }
      }
    }

    /**
     * A bare name as a type: a primitive (with the pending metadata), a
     * registered schema, `any` for no name, or a record placeholder.
     */
    method NamedType() returns (t: Schema)
      requires Valid()
      modifies this`i, this`line, this`col, this`Schemas, this`pending
      ensures Valid() && t in Schemas && old(Schemas) <= Schemas && fresh(Schemas - old(Schemas))
      ensures old(i) <= i == IdentAtEnd(text, old(i)) && NamedTypeIs(t, IdentAt(text, old(i)), named)
      ensures Unrenamed(old(Schemas))
    {
      var name := ParseIdent();
      var p := PrimitiveName(name);
      if p.Some? {
        t := NewSchema(Primitive, p.value);
        ApplyPendingToSchema(t);
      } else if name in named {
        t := named[name];
      } else if name == "" {
        t := NewSchema(SchemaKind.Any, "");
      } else {
        t := NewSchema(Record, name);
      }
    }

    /** The `obj` of `_parse_meta(self.node)`: the top of the node stack, if any. */
    function NodeTarget(): (t: Target)
      reads this`nodeStack
      ensures |nodeStack| > 0 ==> t == ToNode(nodeStack[|nodeStack| - 1])
      ensures |nodeStack| == 0 ==> t == NoTarget
    {
      if |nodeStack| == 0 then NoTarget else ToNode(nodeStack[|nodeStack| - 1])
    }

    /** The node whose metadata a `_parse_node` call may take: the top of the node stack. */
    ghost function NodeTop(): set<Node>
      reads this`nodeStack
    {
      if |nodeStack| == 0 then {} else {nodeStack[|nodeStack| - 1]}
    }

    /** `n` is the top of the node stack. */
    ghost predicate OnTop(n: Node)
      reads this`nodeStack
    {
      |nodeStack| > 0 && nodeStack[|nodeStack| - 1] == n
    }

    /** The node itself, or nothing. */
    function Maybe(n: Node?): set<Node>
    {
      if n == null then {} else {n}
    }

    /** `node.schema = schema`, with one of the decoder's schemas. */
    method SetNodeSchema(node: Node, schema: Schema)
      requires Valid() && schema in Schemas
      modifies node`schema
      ensures Valid() && node.schema == schema
    {
      node.schema := schema;
    }

    /** `node.fields[key] = value`. */
    method PutField(node: Node, key: string, value: Node)
      requires Valid()
      modifies node`fields
      ensures Valid() && node.fields == Put(old(node.fields), key, value)
    {
      node.fields := Put(node.fields, key, value);
    }

    /**
     * A parsed child joins the list node; while the list schema's element
     * is `any`, the child's schema replaces it.
     */
    method AddElement(node: Node, child: Node)
      requires Valid() && node.schema in Schemas && child.schema in Schemas
      modifies node`elements, node.schema`element
      ensures Valid() && node.elements == old(node.elements) + [child]
      ensures old(node.schema.element) != null && old(node.schema.element.IsAny()) ==> node.schema.element == child.schema
      ensures !(old(node.schema.element) != null && old(node.schema.element.IsAny())) ==>
        node.schema.element == old(node.schema.element)
    {
      node.elements := node.elements + [child];
      var parent := node.schema;
      if parent.element != null && parent.element.IsAny() {
        parent.element := child.schema;
        forall t | t in Schemas ensures Closed(t) { assert old(Closed(t)); }
      }
    }

    /**
     * The start of `_parse_list` on the node's schema: a schema that is not
     * a list becomes one (type name `list`) of a new `any` element; the
     * element is the context of every child.
     */
    method ForceList(schema: Schema) returns (element: Schema)
      requires Valid() && schema in Schemas
      modifies this`Schemas, schema`kind, schema`typeName, schema`element
      ensures Valid() && element in Schemas && old(Schemas) <= Schemas && fresh(Schemas - old(Schemas))
      ensures schema.kind == SchemaKind.List && element == schema.element
      ensures old(schema.kind) == SchemaKind.List ==>
        schema.typeName == old(schema.typeName) && element == old(schema.element) && Schemas == old(Schemas)
      ensures old(schema.kind) != SchemaKind.List ==>
        schema.typeName == "list" && fresh(element) && element.Shape() == MkShape(SchemaKind.Any, "any")
    {
      if schema.kind == SchemaKind.List {
        assert Closed(schema);
        element := schema.element;
        return;
      }
      element := NewSchema(SchemaKind.Any, "");
      label made:
      schema.kind := SchemaKind.List;
      schema.typeName := "list";
      schema.element := element;
      forall t | t in Schemas ensures Closed(t) { assert old@made(Closed(t)); }
    }

    /** The start of a record on the node's schema: a schema that is not a record becomes one of type `any`. */
    method ForceRecord(schema: Schema)
      requires Valid() && schema in Schemas
      modifies schema`kind, schema`typeName
      ensures Valid() && schema.kind == Record
      ensures old(schema.kind) == Record ==> schema.typeName == old(schema.typeName)
      ensures old(schema.kind) != Record ==> schema.typeName == "any"
    {
      if schema.kind != Record {
        Retype(schema, Record, "any");
      }
    }

    /** A separator or closing character: the pending metadata onto the last value (or the structure), then past it. */
    method Separate(n: Node)
      requires Valid() && i < |text|
      modifies this`pending, n`comments, n`attr, n`tags, this`i, this`line, this`col
      ensures Valid() && pending == EmptyMeta && i == old(i) + 1
      ensures n.MetaContent() == ApplyCommon(old(n.MetaContent()), old(pending))
    {
      ApplyPendingToNode(n);
      Advance(1);
    }

    /** After a child value: the pending metadata onto it, then the node and schema stacks popped. */
    method CloseChild(child: Node)
      requires Valid()
      modifies this`pending, child`comments, child`attr, child`tags, this`nodeStack, this`schemaStack,
        PopFrame()`comments, PopFrame()`attr, PopFrame()`tags, PopFrame()`required
      ensures Valid() && pending == EmptyMeta
      ensures child.MetaContent() == ApplyCommon(old(child.MetaContent()), old(pending))
      ensures old(|nodeStack|) > 0 ==> nodeStack == old(nodeStack[..|nodeStack| - 1])
      ensures old(|nodeStack|) == 0 ==> nodeStack == old(nodeStack)
    {
      ApplyPendingToNode(child);
      var _ := PopNode();
      var _ := PopSchema();
    }

    /**
     * `_parse_node`: metadata (onto the enclosing node), then a node chosen
     * by its first character; at the end of the text an error and a null
     * node.  Each call pushes exactly one new node; of the nodes that were
     * already there only the enclosing one's metadata may change.
     */
    method ParseNode() returns (node: Node)
      requires Valid()
      modifies this, Schemas, NodeTop()`comments, NodeTop()`attr, NodeTop()`tags
      ensures Valid() && old(Schemas) <= Schemas && fresh(Schemas - old(Schemas))
      ensures fresh(node) && node.schema in Schemas && nodeStack == old(nodeStack) + [node]
      ensures old(i) <= i && (old(i) < |text| ==> old(i) < i)
      decreases |text| - i, 12
    {
      node := ReadNode();
    }

    /**
     * `_parse_node` with its scalar case stated: after the metadata, a
     * string, number or bare word at the cursor is the node's value.  The
     * nested readers call `ParseNode`, whose contract leaves this out.
     */
    method ReadNode() returns (node: Node)
      requires Valid()
      modifies this, Schemas, NodeTop()`comments, NodeTop()`attr, NodeTop()`tags
      ensures Valid() && old(Schemas) <= Schemas && fresh(Schemas - old(Schemas))
      ensures fresh(node) && node.schema in Schemas && nodeStack == old(nodeStack) + [node]
      ensures old(i) <= i && (old(i) < |text| ==> old(i) < i)
      ensures var k := SkipSpace(text, old(i)); k < |text| && ScalarStart(text[k]) ==> (node.value, i) == PrimitiveAt(text, k)
      decreases |text| - i, 11
    {
      ParseMeta(NodeTarget());
      if i == |text| {
        node := MissingNode();
        return;
      }
      node := NodeWithMeta();
    }

    /** The node at the cursor, which then takes the pending metadata. */
    method NodeWithMeta() returns (node: Node)
      requires Valid() && i < |text|
      modifies this, Schemas, NodeTop()`comments, NodeTop()`attr, NodeTop()`tags
      ensures Valid() && old(Schemas) <= Schemas && fresh(Schemas - old(Schemas))
      ensures fresh(node) && node.schema in Schemas && nodeStack == old(nodeStack) + [node]
      ensures old(i) < i && pending == EmptyMeta
      ensures ScalarStart(text[old(i)]) ==> (node.value, i) == PrimitiveAt(text, old(i))
      decreases |text| - i, 10
    {
      node := NodeAt();
      ApplyPendingToNode(node);
    }

    /** The end of the text where a node was expected: an error, and a null node. */
    method MissingNode() returns (node: Node)
      requires Valid()
      modifies this`errors, this`Schemas, this`schemaStack, this`nodeStack, this`pending
      ensures Valid() && old(Schemas) <= Schemas && fresh(Schemas - old(Schemas))
      ensures fresh(node) && node.schema in Schemas && nodeStack == old(nodeStack) + [node]
      ensures node.value == Null && errors == Logged(old(errors), Diagnostic("Unexpected EOF while expecting a node", i))
    {
      AddError("Unexpected EOF while expecting a node");
      node := CreateNode(Null);
    }

    /** `_parse_node`'s dispatch on the character at the cursor. */
    method NodeAt() returns (node: Node)
      requires Valid() && i < |text|
      modifies this, Schemas, NodeTop()`comments, NodeTop()`attr, NodeTop()`tags
      ensures Valid() && old(Schemas) <= Schemas && fresh(Schemas - old(Schemas))
      ensures fresh(node) && node.schema in Schemas && nodeStack == old(nodeStack) + [node]
      ensures old(i) < i
      ensures ScalarStart(text[old(i)]) ==> (node.value, i) == PrimitiveAt(text, old(i))
      decreases |text| - i, 9
    {
      var ch := text[i];
      if ch == '@' {
        node := WithSchemaRef();
      } else if ch == '<' {
        node := WithInlineSchema();
      } else if ch == '[' {
        ghost var children;
        node, children := ParseList();
      } else if ch == '(' {
        ghost var predefined, stored;
        node, predefined, stored := ParsePositionalRecord();
      } else if ch == '{' {
        ghost var stored;
        node, stored := ParseNamedRecord();
      } else {
        node := ScalarNode();
      }
    }

    /**
     * A string, a number or a bare word as a node, with the schema
     * `_create_node` chooses for its value; any other character is an
     * error, skipped, and gives a null node.
     */
    method ScalarNode() returns (node: Node)
      requires Valid() && i < |text|
      modifies this`i, this`line, this`col, this`errors, this`pending
      modifies this`Schemas, this`schemaStack, this`nodeStack
      ensures Valid() && old(Schemas) <= Schemas && fresh(Schemas - old(Schemas))
      ensures fresh(node) && node.schema in Schemas && nodeStack == old(nodeStack) + [node]
      ensures old(i) < i
      ensures var ch := text[old(i)];
        if ScalarStart(ch)
        then ((node.value, i) == PrimitiveAt(text, old(i)) && old(errors) <= errors)
        else (node.value == Null && i == old(i) + 1
          && errors == Logged(old(errors), Diagnostic("Unexpected character '" + [ch] + "'", old(i))))
    {
      var ch := text[i];
      var v := Null;
      if ch == '"' || IsDigit(ch) || ch == '-' || IsIdentStart(ch) {
        v := ParsePrimitiveValue();
      } else {
        ErrorAndSkip("Unexpected character '" + [ch] + "'");
      }
      node := CreateNode(v);
    }

    /** `@Type value`: the value read with the referenced (or defined) schema as context, then bound to it. */
    method WithSchemaRef() returns (node: Node)
      requires Valid() && i < |text| && text[i] == '@'
      modifies this, Schemas, NodeTop()`comments, NodeTop()`attr, NodeTop()`tags
      ensures Valid() && old(Schemas) <= Schemas && fresh(Schemas - old(Schemas))
      ensures fresh(node) && node.schema in Schemas && nodeStack == old(nodeStack) + [node]
      ensures old(i) < i
      ensures var name := IdentAt(text, old(i) + 1); var k := SkipSpace(text, IdentAtEnd(text, old(i) + 1));
        !(k < |text| && text[k] == '<') && name in old(named) ==> node.schema == old(named[name])
      decreases |text| - i, 8
    {
      var schema := ParseSchemaAtRef();
      node := UnderSchema(schema);
    }

    /** `<...> value`: the value read with the inline schema as context, then bound to it. */
    method WithInlineSchema() returns (node: Node)
      requires Valid() && i < |text| && text[i] == '<'
      modifies this, Schemas, NodeTop()`comments, NodeTop()`attr, NodeTop()`tags
      ensures Valid() && old(Schemas) <= Schemas && fresh(Schemas - old(Schemas))
      ensures fresh(node) && node.schema in Schemas && nodeStack == old(nodeStack) + [node]
      ensures old(i) < i
      decreases |text| - i, 8
    {
      var schema := ParseSchemaBody("");
      node := UnderSchema(schema);
    }

    /** The value read next with `schema` pushed as its context; the node is then bound to `schema`. */
    method UnderSchema(schema: Schema) returns (node: Node)
      requires Valid() && schema in Schemas
      modifies this, Schemas, NodeTop()`comments, NodeTop()`attr, NodeTop()`tags
      ensures Valid() && old(Schemas) <= Schemas && fresh(Schemas - old(Schemas))
      ensures fresh(node) && nodeStack == old(nodeStack) + [node]
      ensures old(i) <= i && (old(i) < |text| ==> old(i) < i)
      ensures node.schema == schema
      decreases |text| - i, 20
    {
      PushSchema(schema);
      node := ParseNode();
      var _ := PopSchema();
      SetNodeSchema(node, schema);
    }

    /**
     * `_parse_list`: `[`, a null node whose schema is made a list, then the
     * elements up to `]`; the element schema pushed for the children is
     * popped once at the end.  The list's elements are the new nodes read
     * (`children`), in reading order; at the end of the text, those read
     * so far.
     */
    method ParseList() returns (node: Node, ghost children: seq<Node>)
      requires Valid() && i < |text| && text[i] == '['
      modifies this, Schemas
      ensures Valid() && old(Schemas) <= Schemas && fresh(Schemas - old(Schemas))
      ensures fresh(node) && node.schema in Schemas && nodeStack == old(nodeStack) + [node]
      ensures old(i) < i && node.value == Null
      ensures node.elements == children && forall k :: 0 <= k < |children| ==> fresh(children[k])
      decreases |text| - i, 8
    {
      Advance(1);
      node := CreateNode(Null);
      children := ListBody(node);
    }

    /** The list node's schema made a list, its elements read and appended as `children`, the element schema popped. */
    method ListBody(node: Node) returns (ghost children: seq<Node>)
      requires Valid() && OnTop(node) && node.schema in Schemas
      modifies this, Schemas, node`comments, node`attr, node`tags, node`elements
      ensures Valid() && old(Schemas) <= Schemas && fresh(Schemas - old(Schemas))
      ensures nodeStack == old(nodeStack) && old(i) <= i
      ensures node.elements == old(node.elements) + children && forall k :: 0 <= k < |children| ==> fresh(children[k])
      decreases |text| - i, 21
    {
      var element := ForceList(node.schema);
      children := ListItems(node, element);
      var _ := PopSchema();
    }

    /**
     * `_parse_list`'s loop: elements, separators and the closing `]`, or
     * the end of the text.  `children` lists the elements appended, in
     * reading order.
     */
    method ListItems(node: Node, element: Schema) returns (ghost children: seq<Node>)
      requires Valid() && OnTop(node) && node.schema in Schemas && element in Schemas
      modifies this, Schemas, node`comments, node`attr, node`tags, node`elements
      ensures Valid() && old(Schemas) <= Schemas && fresh(Schemas - old(Schemas))
      ensures node.elements == old(node.elements) + children && forall k :: 0 <= k < |children| ==> fresh(children[k])
      ensures nodeStack == old(nodeStack) && old(i) <= i
      decreases |text| - i, 20
    {
      var child: Node? := null;
      children := [];
      while true
        invariant Valid() && OnTop(node) && element in Schemas && (child != null ==> fresh(child))
        invariant old(Schemas) <= Schemas && fresh(Schemas - old(Schemas))
        invariant node.elements == old(node.elements) + children && forall k :: 0 <= k < |children| ==> fresh(children[k])
        invariant nodeStack == old(nodeStack) && old(i) <= i
        decreases |text| - i
      {
        var stop;
        ghost var added, before;
        child, stop, added, before := ListItem(node, element, child);
        if added {
          children := children + [child];
        }
        if stop {
          break;
        }
      }
    }

    /**
     * One pass of `_parse_list`'s loop: metadata onto the list, the element
     * schema pushed, then one entry; when it adds an element, the list's
     * element schema follows the rule of `ListElement`.
     */
    method ListItem(node: Node, element: Schema, child: Node?) returns (child': Node?, stop: bool, ghost added: bool, ghost before: Schema?)
      requires Valid() && OnTop(node) && node.schema in Schemas && element in Schemas
      modifies this, Schemas, node`comments, node`attr, node`tags, node`elements
      modifies Maybe(child)`comments, Maybe(child)`attr, Maybe(child)`tags
      ensures Valid() && old(Schemas) <= Schemas && fresh(Schemas - old(Schemas))
      ensures old(node.elements) <= node.elements
      ensures nodeStack == old(nodeStack) && old(i) <= i && (child' == child || fresh(child'))
      ensures stop || old(i) < i
      ensures added ==> child' != null && fresh(child') && node.elements == old(node.elements) + [child']
      ensures !added ==> child' == child && node.elements == old(node.elements)
      ensures added ==> (before != null && MkShape(before.kind, before.typeName).IsAny() ==> node.schema.element == child'.schema)
      ensures added ==> (!(before != null && MkShape(before.kind, before.typeName).IsAny()) ==> node.schema.element == before)
      decreases |text| - i, 19
    {
      ParseMeta(ToNode(node));
      PushSchema(element);
      child', stop, added, before := ListEntry(node, element, child);
    }

    /**
     * After the metadata: the end of the text (an error; the list keeps the
     * elements read so far), `]`, `,`, or one element.
     */
    method ListEntry(node: Node, element: Schema, child: Node?) returns (child': Node?, stop: bool, ghost added: bool, ghost before: Schema?)
      requires Valid() && OnTop(node) && node.schema in Schemas && element in Schemas
      modifies this, Schemas, node`comments, node`attr, node`tags, node`elements
      modifies Maybe(child)`comments, Maybe(child)`attr, Maybe(child)`tags
      ensures Valid() && old(Schemas) <= Schemas && fresh(Schemas - old(Schemas))
      ensures nodeStack == old(nodeStack) && old(i) <= i
      ensures old(i) == |text| ==> (stop && child' == child && node.elements == old(node.elements)
        && errors == Logged(old(errors), Diagnostic("Unexpected EOF: List not closed, expected ']'", old(i))))
      ensures old(i) < |text| && (text[old(i)] == ']' || text[old(i)] == ',')  ==> (stop == (text[old(i)] == ']')
        && i == old(i) + 1 && child' == child && node.elements == old(node.elements))
      ensures old(i) < |text| && !(text[old(i)] == ']' || text[old(i)] == ',') ==> (!stop && old(i) < i
        && child' != null && fresh(child') && node.elements == old(node.elements) + [child'])
      ensures added ==> child' != null && (before != null && MkShape(before.kind, before.typeName).IsAny() ==> node.schema.element == child'.schema)
      ensures added ==> (!(before != null && MkShape(before.kind, before.typeName).IsAny()) ==> node.schema.element == before)
      ensures added == (old(i) < |text| && !(text[old(i)] == ']' || text[old(i)] == ','))
      decreases |text| - i, 18
    {
      child', added, before := child, false, null;
      if i == |text| {
        AddError("Unexpected EOF: List not closed, expected ']'");
        return child, true, false, null;
      }
      if text[i] == ']' || text[i] == ',' {
        stop := text[i] == ']';
        Separate(if child != null then child else node);
        return;
      }
      child', before := ListElement(node, element);
      stop, added := false, true;
    }

    /**
     * One element: read with the element schema as context, appended, its
     * metadata applied, the stacks popped.  `before` is the list's element
     * schema once the child is read: if it is then `any` the child's schema
     * replaces it, otherwise it stays.
     */
    method ListElement(node: Node, element: Schema) returns (child: Node, ghost before: Schema?)
      requires Valid() && OnTop(node) && node.schema in Schemas && element in Schemas
      modifies this, Schemas, node`comments, node`attr, node`tags, node`elements
      ensures Valid() && old(Schemas) <= Schemas && fresh(Schemas - old(Schemas))
      ensures node.elements == old(node.elements) + [child]
      ensures nodeStack == old(nodeStack) && fresh(child)
      ensures old(i) <= i && (old(i) < |text| ==> old(i) < i)
      ensures before != null && MkShape(before.kind, before.typeName).IsAny() ==> node.schema.element == child.schema
      ensures !(before != null && MkShape(before.kind, before.typeName).IsAny()) ==> node.schema.element == before
      decreases |text| - i, 17
    {
      child := ParseNode();
      before := AppendElement(node, child);
    }

    /** A read element appended to the list node, its metadata applied and the stacks popped. */
    method AppendElement(node: Node, child: Node) returns (ghost before: Schema?)
      requires Valid() && node.schema in Schemas && child.schema in Schemas && OnTop(child)
      modifies this`pending, this`nodeStack, this`schemaStack, Schemas, child`comments, child`attr, child`tags, node`elements
      ensures Valid() && node.elements == old(node.elements) + [child]
      ensures nodeStack == old(nodeStack[..|nodeStack| - 1])
      ensures before != null && MkShape(before.kind, before.typeName).IsAny() ==> node.schema.element == child.schema
      ensures !(before != null && MkShape(before.kind, before.typeName).IsAny()) ==> node.schema.element == before
    {
      before := node.schema.element;
      AddElement(node, child);
      CloseChild(child);
    }

    /**
     * `_parse_positional_record`: `(`, a null node whose schema is made a
     * record, then values up to `)`, matched by position against the
     * fields the schema had at the start (`predefined`).  That schema is
     * the context record or list, whose fields are `predefined`, or a new
     * one without fields.  The record's fields are the values read, each
     * `Put` under its name in reading order (`stored`): the k-th value
     * past the predefined fields under `_k`; without predefined fields
     * the record's fields are exactly `stored`.
     */
    method ParsePositionalRecord() returns (node: Node, ghost predefined: seq<Schema>, ghost stored: OMap<string, Node>)
      requires Valid() && i < |text| && text[i] == '('
      modifies this, Schemas
      ensures Valid() && old(Schemas) <= Schemas && fresh(Schemas - old(Schemas))
      ensures fresh(node) && node.schema in Schemas && nodeStack == old(nodeStack) + [node]
      ensures old(i) < i && node.value == Null
      ensures var ctx := if old(|schemaStack|) > 0 then old(schemaStack[|schemaStack| - 1].Shape()) else MkShape(SchemaKind.Any, "any");
        match NodeSchemaChoice(ctx, Null)
        case KeepContext => old(|schemaStack|) > 0 && predefined == old(schemaStack[|schemaStack| - 1].fieldsList)
        case FreshShape(_) => predefined == []
      ensures node.fields == Update([], stored)
      ensures InferredNames(stored, |predefined|)
      ensures predefined == [] ==> node.fields == stored
      decreases |text| - i, 8
    {
      ghost var start;
      node, start := OpenRecord();
      predefined, stored := PositionalBody(node);
      if predefined == [] {
        PositionalWithoutFields(stored);
      }
    }

    /**
     * Past `(` or `{`, the record's null node created and pushed; `start` is the
     * fields its schema has: the context record's or list's, or none for a
     * new schema.
     */
    method OpenRecord() returns (node: Node, ghost start: seq<Schema>)
      requires Valid() && i < |text|
      modifies this`i, this`line, this`col, this`Schemas, this`schemaStack, this`nodeStack, this`pending
      ensures Valid() && old(Schemas) <= Schemas && fresh(Schemas - old(Schemas))
      ensures fresh(node) && node.schema in Schemas && nodeStack == old(nodeStack) + [node] && OnTop(node)
      ensures i == old(i) + 1 && node.value == Null && node.fields == []
      ensures start == node.schema.fieldsList
      ensures var ctx := if old(|schemaStack|) > 0 then old(schemaStack[|schemaStack| - 1].Shape()) else MkShape(SchemaKind.Any, "any");
        match NodeSchemaChoice(ctx, Null)
        case KeepContext => old(|schemaStack|) > 0 && start == old(schemaStack[|schemaStack| - 1].fieldsList)
        case FreshShape(_) => start == []
    {
      ghost var top: Schema? := if |schemaStack| > 0 then schemaStack[|schemaStack| - 1] else null;
      Advance(1);
      node := CreateNode(Null);
      start := node.schema.fieldsList;
      assert top != null ==> top.fieldsList == old(top.fieldsList);
    }

    /**
     * The record node's schema made a record, then its values read against
     * the fields it has now (`predefined`); the values read are `Put`
     * into the node's fields as `stored` lists them.
     */
    method PositionalBody(node: Node) returns (ghost predefined: seq<Schema>, ghost stored: OMap<string, Node>)
      requires Valid() && OnTop(node) && node.schema in Schemas && node.fields == []
      modifies this, Schemas, node`comments, node`attr, node`tags, node`fields
      ensures Valid() && old(Schemas) <= Schemas && fresh(Schemas - old(Schemas))
      ensures nodeStack == old(nodeStack) && old(i) <= i
      ensures predefined == old(node.schema.fieldsList)
      ensures node.fields == Update([], stored)
      ensures InferredNames(stored, |predefined|)
      decreases |text| - i, 21
    {
      ForceRecord(node.schema);
      assert Closed(node.schema);
      var fields := node.schema.fieldsList;
      predefined := fields;
      stored := PositionalItems(node, fields);
    }

    /**
     * `_parse_positional_record`'s loop, up to `)` or the end of the text.
     * `stored` lists, in reading order, each value read with the name it
     * was stored under: the k-th value's predefined field's name at that
     * moment, or `_k` past the predefined fields.
     */
    method PositionalItems(node: Node, predefined: seq<Schema>) returns (ghost stored: OMap<string, Node>)
      requires Valid() && OnTop(node) && node.schema in Schemas
      requires forall k :: 0 <= k < |predefined| ==> predefined[k] in Schemas
      modifies this, Schemas, node`comments, node`attr, node`tags, node`fields
      ensures Valid() && old(Schemas) <= Schemas && fresh(Schemas - old(Schemas))
      ensures nodeStack == old(nodeStack) && old(i) <= i
      ensures node.fields == Update(old(node.fields), stored)
      ensures InferredNames(stored, |predefined|)
      decreases |text| - i, 20
    {
      var index := 0;
      var val: Node? := null;
      ghost var base := node.fields;
      stored := [];
      while i < |text|
        invariant Valid() && OnTop(node) && (val != null ==> fresh(val))
        invariant forall k :: 0 <= k < |predefined| ==> predefined[k] in Schemas
        invariant old(Schemas) <= Schemas && fresh(Schemas - old(Schemas))
        invariant nodeStack == old(nodeStack) && old(i) <= i
        invariant index == |stored| && node.fields == Update(base, stored)
        invariant InferredNames(stored, |predefined|)
        decreases |text| - i
      {
        var stop;
        val, index, stop, stored := PositionalItem(node, predefined, index, val, base, stored);
        if stop {
          break;
        }
      }
    }

    /**
     * One pass of the positional loop: metadata onto the record, then `)`
     * or `,` (fields and index unchanged) or the next value, stored under
     * the index's name with the index stepped.  The values stored so far,
     * `stored` over the fields `base` the loop started from, gain that
     * value and its name.
     */
    method PositionalItem(node: Node, predefined: seq<Schema>, index: nat, val: Node?,
                          ghost base: OMap<string, Node>, ghost stored: OMap<string, Node>)
      returns (val': Node?, index': nat, stop: bool, ghost stored': OMap<string, Node>)
      requires Valid() && OnTop(node) && node.schema in Schemas && i < |text|
      requires forall k :: 0 <= k < |predefined| ==> predefined[k] in Schemas
      requires index == |stored| && node.fields == Update(base, stored) && InferredNames(stored, |predefined|)
      modifies this, Schemas, node`comments, node`attr, node`tags, node`fields
      modifies Maybe(val)`comments, Maybe(val)`attr, Maybe(val)`tags
      ensures Valid() && old(Schemas) <= Schemas && fresh(Schemas - old(Schemas))
      ensures nodeStack == old(nodeStack) && (val' == val || fresh(val'))
      ensures (stop || old(i) < i) && old(i) <= i
      ensures || (index' == index && val' == val && node.fields == old(node.fields))
              || (!stop && index' == index + 1 && val' != null && fresh(val')
                  && node.fields == Put(old(node.fields), PositionalName(predefined, index), val' as Node))
      ensures index' == index ==> stored' == stored
      ensures index' != index ==> val' != null && stored' == stored + [(PositionalName(predefined, index), val' as Node)]
      ensures index' == |stored'| && node.fields == Update(base, stored') && InferredNames(stored', |predefined|)
      decreases |text| - i, 19
    {
      ParseMeta(ToNode(node));
      assert node.fields == Update(base, stored) && OnTop(node);
      val', index', stop := PositionalEntry(node, predefined, index, val);
      stored' := stored;
      if index' != index {
        ghost var key, n := PositionalName(predefined, index), |predefined|;
        stored' := stored + [(key, val' as Node)];
        UpdateSnoc(base, stored, key, val' as Node);
        InferredNamesSnoc(stored, n, key, val' as Node);
      }
    }

    /** `)` ends the record and `,` is skipped (both after the pending metadata goes onto the last value); else a value. */
    method PositionalEntry(node: Node, predefined: seq<Schema>, index: nat, val: Node?) returns (val': Node?, index': nat, stop: bool)
      requires Valid() && OnTop(node) && node.schema in Schemas
      requires forall k :: 0 <= k < |predefined| ==> predefined[k] in Schemas
      modifies this, Schemas, node`comments, node`attr, node`tags, node`fields
      modifies Maybe(val)`comments, Maybe(val)`attr, Maybe(val)`tags
      ensures Valid() && old(Schemas) <= Schemas && fresh(Schemas - old(Schemas))
      ensures nodeStack == old(nodeStack) && old(i) <= i
      ensures stop || old(i) == |text| || old(i) < i
      ensures old(i) < |text| && (text[old(i)] == ')' || text[old(i)] == ',') ==> (stop == (text[old(i)] == ')')
        && i == old(i) + 1 && node.fields == old(node.fields) && index' == index && val' == val)
      ensures !(old(i) < |text| && (text[old(i)] == ')' || text[old(i)] == ',')) ==> (!stop && index' == index + 1 && val' != null && fresh(val')
        && node.fields == Put(old(node.fields), PositionalName(predefined, index), val' as Node))
      decreases |text| - i, 18
    {
      if i < |text| && (text[i] == ')' || text[i] == ',') {
        stop := text[i] == ')';
        Separate(if val != null then val else node);
        return val, index, stop;
      }
      val' := PositionalValue(node, predefined, index);
      index', stop := index + 1, false;
    }

    /** The `index`-th value: read with its field (or a new `any` schema) as context, stored, the stacks popped. */
    method PositionalValue(node: Node, predefined: seq<Schema>, index: nat) returns (val: Node)
      requires Valid() && OnTop(node) && node.schema in Schemas
      requires forall k :: 0 <= k < |predefined| ==> predefined[k] in Schemas
      modifies this, Schemas, node`comments, node`attr, node`tags, node`fields
      ensures Valid() && old(Schemas) <= Schemas && fresh(Schemas - old(Schemas))
      ensures nodeStack == old(nodeStack)
      ensures fresh(val) && old(i) <= i && (old(i) < |text| ==> old(i) < i)
      ensures node.fields == Put(old(node.fields), PositionalName(predefined, index), val)
      decreases |text| - i, 17
    {
      val := PositionalChild(predefined, index);
      FinishPositional(node, predefined, index, val);
    }

    /** The `index`-th value read with its context pushed; it is left on the node stack. */
    method PositionalChild(predefined: seq<Schema>, index: nat) returns (val: Node)
      requires Valid() && forall k :: 0 <= k < |predefined| ==> predefined[k] in Schemas
      modifies this, Schemas, NodeTop()`comments, NodeTop()`attr, NodeTop()`tags
      ensures Valid() && old(Schemas) <= Schemas && fresh(Schemas - old(Schemas))
      ensures fresh(val) && val.schema in Schemas && nodeStack == old(nodeStack) + [val]
      ensures old(i) <= i && (old(i) < |text| ==> old(i) < i)
      decreases |text| - i, 16
    {
      var field := PositionalContext(predefined, index);
      val := ParseNode();
    }

    /**
     * The `index`-th value's metadata applied and the node and schema stacks
     * popped, then the value stored.  The source stores first; the two steps
     * touch disjoint state (metadata and stacks against fields and the
     * record's field list), so the order does not show.
     */
    method FinishPositional(node: Node, predefined: seq<Schema>, index: nat, val: Node)
      requires Valid() && node.schema in Schemas && val.schema in Schemas
      requires forall k :: 0 <= k < |predefined| ==> predefined[k] in Schemas
      modifies this`Schemas, this`pending, this`nodeStack, this`schemaStack, Schemas, node`fields, val`comments, val`attr, val`tags
      ensures Valid() && old(Schemas) <= Schemas && fresh(Schemas - old(Schemas))
      ensures old(|nodeStack|) > 0 ==> nodeStack == old(nodeStack[..|nodeStack| - 1])
      ensures node.fields == Put(old(node.fields), PositionalName(predefined, index), val)
    {
      ghost var fields := node.fields;
      CloseChild(val);
      assert node.fields == fields && node.schema in Schemas && val.schema in Schemas;
      StorePositional(node, predefined, index, val);
    }

    /** The context of the `index`-th positional value, pushed: its predefined field, or a new `any` schema. */
    method PositionalContext(predefined: seq<Schema>, index: nat) returns (field: Schema)
      requires Valid() && forall k :: 0 <= k < |predefined| ==> predefined[k] in Schemas
      modifies this`Schemas, this`schemaStack
      ensures Valid() && old(Schemas) <= Schemas && fresh(Schemas - old(Schemas))
      ensures schemaStack == old(schemaStack) + [field]
      ensures index < |predefined| ==> field == predefined[index] && Schemas == old(Schemas)
      ensures index >= |predefined| ==> fresh(field) && field.Shape() == MkShape(SchemaKind.Any, "any")
    {
      if index < |predefined| {
        field := predefined[index];
      } else {
        field := NewSchema(SchemaKind.Any, "");
      }
      PushSchema(field);
    }

    /**
     * The `index`-th value stored under its predefined field's name; past
     * the predefined fields, under `_index`, with a new field of the
     * value's kind and type name appended to the record's schema.
     */
    method StorePositional(node: Node, predefined: seq<Schema>, index: nat, val: Node)
      requires Valid() && node.schema in Schemas && val.schema in Schemas
      requires forall k :: 0 <= k < |predefined| ==> predefined[k] in Schemas
      modifies this`Schemas, node`fields, node.schema
      ensures Valid() && old(Schemas) <= Schemas && fresh(Schemas - old(Schemas))
      ensures node.fields == Put(old(node.fields), PositionalName(predefined, index), val)
      ensures index < |predefined| ==> Schemas == old(Schemas) && unchanged(node.schema)
      ensures index >= |predefined| ==> Inferred(node.schema, old(node.schema.fieldsList), old(node.schema.fieldsMap),
        "_" + IntToString(index), old(val.schema.Shape()), old(val.schema.element))
    {
      if index < |predefined| {
        PutField(node, predefined[index].name, val);
      } else {
        InferField(node.schema, "_" + IntToString(index), val.schema);
        PutField(node, "_" + IntToString(index), val);
      }
    }

    /**
     * `inferred_field = Schema(kind, type_name=...)`, named, then
     * `schema.add_field(inferred_field)`: a new field of `like`'s kind and
     * type name appended to `schema`.  A list field keeps `like`'s element,
     * where the source leaves the new field's element unset.
     */
    method InferField(schema: Schema, name: string, like: Schema)
      requires Valid() && schema in Schemas && like in Schemas
      modifies this`Schemas, schema
      ensures Valid() && old(Schemas) <= Schemas && fresh(Schemas - old(Schemas))
      ensures Inferred(schema, old(schema.fieldsList), old(schema.fieldsMap), name, old(like.Shape()), old(like.element))
    {
      assert Closed(like);
      var field := new Schema(like.kind, like.typeName, name, if like.kind == SchemaKind.List then like.element else null);
      Schemas := Schemas + {field};
      forall t | t in Schemas ensures Closed(t) {
        if t != field {
          assert old(Closed(t));
        }
      }
      AddFieldTo(schema, field);
    }

    /**
     * `_parse_named_record`: `{`, a null node whose schema is made a record,
     * then `key: value` entries up to `}`.  The record's fields are the
     * entries read, each `Put` under its key in reading order (`stored`):
     * a repeated key keeps its first position and takes its last value,
     * and with distinct keys the fields are exactly `stored`.
     */
    method ParseNamedRecord() returns (node: Node, ghost stored: OMap<string, Node>)
      requires Valid() && i < |text| && text[i] == '{'
      modifies this, Schemas
      ensures Valid() && old(Schemas) <= Schemas && fresh(Schemas - old(Schemas))
      ensures fresh(node) && node.schema in Schemas && nodeStack == old(nodeStack) + [node]
      ensures old(i) < i && node.value == Null
      ensures node.fields == Update([], stored)
      decreases |text| - i, 8
    {
      ghost var start;
      node, start := OpenRecord();
      stored := NamedBody(node);
    }

    /** The record node's schema made a record, then its `key: value` entries read and `Put` as `stored` lists them. */
    method NamedBody(node: Node) returns (ghost stored: OMap<string, Node>)
      requires Valid() && OnTop(node) && node.schema in Schemas && node.fields == []
      modifies this, Schemas, node`comments, node`attr, node`tags, node`fields
      ensures Valid() && old(Schemas) <= Schemas && fresh(Schemas - old(Schemas))
      ensures nodeStack == old(nodeStack) && old(i) <= i
      ensures node.fields == Update([], stored)
      decreases |text| - i, 21
    {
      ForceRecord(node.schema);
      stored := NamedItems(node);
    }

    /**
     * `_parse_named_record`'s loop, up to `}` or the end of the text.
     * `stored` lists, in reading order, each entry read: its key and the
     * value stored under it.
     */
    method NamedItems(node: Node) returns (ghost stored: OMap<string, Node>)
      requires Valid() && OnTop(node) && node.schema in Schemas
      modifies this, Schemas, node`comments, node`attr, node`tags, node`fields
      ensures Valid() && old(Schemas) <= Schemas && fresh(Schemas - old(Schemas))
      ensures nodeStack == old(nodeStack) && old(i) <= i
      ensures node.fields == Update(old(node.fields), stored)
      decreases |text| - i, 20
    {
      var val: Node? := null;
      ghost var base := node.fields;
      stored := [];
      while i < |text|
        invariant Valid() && OnTop(node) && (val != null ==> fresh(val))
        invariant old(Schemas) <= Schemas && fresh(Schemas - old(Schemas))
        invariant nodeStack == old(nodeStack) && old(i) <= i
        invariant node.fields == Update(base, stored)
        decreases |text| - i
      {
        var stop;
        ghost var key, put;
        val, stop, key, put, stored := NamedItem(node, val, base, stored);
        if stop {
          break;
        }
      }
    }

    /**
     * One pass of the named loop: metadata onto the record, then `}` or
     * `,` (fields unchanged), or an entry: its value stored under `key`
     * when the key was read (`put`), the fields unchanged when it was not.
     */
    method NamedItem(node: Node, val: Node?, ghost base: OMap<string, Node>, ghost stored: OMap<string, Node>)
      returns (val': Node?, stop: bool, ghost key: string, ghost put: bool, ghost stored': OMap<string, Node>)
      requires Valid() && OnTop(node) && node.schema in Schemas && i < |text|
      requires node.fields == Update(base, stored)
      modifies this, Schemas, node`comments, node`attr, node`tags, node`fields
      modifies Maybe(val)`comments, Maybe(val)`attr, Maybe(val)`tags
      ensures Valid() && old(Schemas) <= Schemas && fresh(Schemas - old(Schemas))
      ensures nodeStack == old(nodeStack) && (val' == val || fresh(val'))
      ensures (stop || old(i) < i) && old(i) <= i
      ensures put ==> !stop && val' != null && fresh(val') && node.fields == Put(old(node.fields), key, val' as Node)
      ensures !put ==> val' == val && node.fields == old(node.fields)
      ensures stored' == if put then stored + [(key, val' as Node)] else stored
      ensures node.fields == Update(base, stored')
      decreases |text| - i, 19
    {
      ParseMeta(ToNode(node));
      val', stop, key, put := NamedEntry(node, val);
      stored' := stored;
      if put {
        stored' := stored + [(key, val' as Node)];
        UpdateSnoc(base, stored, key, val' as Node);
      }
    }

    /**
     * `}` ends the record and `,` is skipped (both after the pending
     * metadata goes onto the last value); else a key and its value.  A
     * missing key is an error and its character is skipped.
     */
    method NamedEntry(node: Node, val: Node?) returns (val': Node?, stop: bool, ghost key: string, ghost put: bool)
      requires Valid() && OnTop(node) && node.schema in Schemas
      modifies this, Schemas, node`comments, node`attr, node`tags, node`fields
      modifies Maybe(val)`comments, Maybe(val)`attr, Maybe(val)`tags
      ensures Valid() && old(Schemas) <= Schemas && fresh(Schemas - old(Schemas))
      ensures nodeStack == old(nodeStack) && old(i) <= i && (val' == val || fresh(val'))
      ensures stop || old(i) == |text| || old(i) < i
      ensures old(i) < |text| && (text[old(i)] == '}' || text[old(i)] == ',') ==> (stop == (text[old(i)] == '}')
        && i == old(i) + 1 && node.fields == old(node.fields))
      ensures !(old(i) < |text| && (text[old(i)] == '}' || text[old(i)] == ',')) ==> !stop
      ensures put <==> !(old(i) < |text| && (text[old(i)] == '}' || text[old(i)] == ',')) && RecordKeyAt(text, old(i)).Some?
      ensures put ==> (key == RecordKeyAt(text, old(i)).value && val' != null && fresh(val')
                       && node.fields == Put(old(node.fields), key, val' as Node))
      ensures !put ==> val' == val && node.fields == old(node.fields)
      decreases |text| - i, 18
    {
      if i < |text| && (text[i] == '}' || text[i] == ',') {
        stop := text[i] == '}';
        Separate(if val != null then val else node);
        return val, stop, "", false;
      }
      stop := false;
      var name, ok := RecordKey();
      key := name;
      if !ok {
        return val, false, key, false;
      }
      put := true;
      val' := NamedValue(node, name);
    }

    /**
     * A record key: an identifier, else a quoted string, then `:` (expected);
     * with neither, the error "Expected key in record" and the character
     * skipped.
     */
    method RecordKey() returns (key: string, ok: bool)
      requires Lexer()
      modifies this`i, this`line, this`col, this`errors
      ensures Lexer() && old(i) <= i && (old(i) < |text| ==> old(i) < i)
      ensures var k := SkipSpace(text, old(i));
        && (ok <==> IdentAt(text, old(i)) != "" || (k < |text| && text[k] == '"'))
        && (IdentAt(text, old(i)) != "" ==> key == IdentAt(text, old(i)))
        && (IdentAt(text, old(i)) == "" && ok ==> key == QuotedScan(text, k + 1, "").0)
        && (!ok ==> i == Forward(text, k, 1) && errors == Logged(old(errors), Diagnostic("Expected key in record", k)))
    {
      key := ParseIdent();
      if key == "" {
        if i < |text| && text[i] == '"' {
          key := ReadQuotedString();
        } else {
          ErrorAndSkip("Expected key in record");
          return key, false;
        }
      }
      ok := true;
      SkipWhitespace();
      var _ := Expect(':');
    }

    /**
     * The value of `key`: read with the key's field of the record schema
     * (or a new `any` schema) as context, then stored under `key`, the
     * schema specialised or extended, the stacks popped.
     */
    method NamedValue(node: Node, key: string) returns (val: Node)
      requires Valid() && OnTop(node) && node.schema in Schemas
      modifies this, Schemas, node`comments, node`attr, node`tags, node`fields
      ensures Valid() && old(Schemas) <= Schemas && fresh(Schemas - old(Schemas))
      ensures nodeStack == old(nodeStack)
      ensures fresh(val) && old(i) <= i && (old(i) < |text| ==> old(i) < i)
      ensures node.fields == Put(old(node.fields), key, val)
      decreases |text| - i, 17
    {
      val := NamedChild(node.schema, key);
      FinishNamed(node, key, val);
    }

    /** `key`'s value read with its context pushed; it is left on the node stack. */
    method NamedChild(current: Schema, key: string) returns (val: Node)
      requires Valid() && current in Schemas
      modifies this, Schemas, NodeTop()`comments, NodeTop()`attr, NodeTop()`tags
      ensures Valid() && old(Schemas) <= Schemas && fresh(Schemas - old(Schemas))
      ensures fresh(val) && val.schema in Schemas && nodeStack == old(nodeStack) + [val]
      ensures old(i) <= i && (old(i) < |text| ==> old(i) < i)
      decreases |text| - i, 16
    {
      var field := KeyContext(current, key);
      val := ParseNode();
    }

    /** `key`'s value stored, its metadata applied, the node and schema stacks popped. */
    method FinishNamed(node: Node, key: string, val: Node)
      requires Valid() && node.schema in Schemas && val.schema in Schemas
      modifies this`Schemas, this`pending, this`nodeStack, this`schemaStack, Schemas, node`fields, val`comments, val`attr, val`tags
      ensures Valid() && old(Schemas) <= Schemas && fresh(Schemas - old(Schemas))
      ensures old(|nodeStack|) > 0 ==> nodeStack == old(nodeStack[..|nodeStack| - 1])
      ensures node.fields == Put(old(node.fields), key, val)
    {
      StoreNamed(node, key, val);
      CloseChild(val);
    }

    /** The context of `key`'s value, pushed: the record's field of that name, or a new `any` schema. */
    method KeyContext(current: Schema, key: string) returns (field: Schema)
      requires Valid() && current in Schemas
      modifies this`Schemas, this`schemaStack
      ensures Valid() && old(Schemas) <= Schemas && fresh(Schemas - old(Schemas))
      ensures schemaStack == old(schemaStack) + [field]
      ensures current.kind == Record && key in current.fieldsMap ==> field == current.fieldsMap[key] && Schemas == old(Schemas)
      ensures !(current.kind == Record && key in current.fieldsMap) ==>
        fresh(field) && field.Shape() == MkShape(SchemaKind.Any, "any")
    {
      if current.kind == Record && key in current.fieldsMap {
        assert Closed(current);
        field := current.fieldsMap[key];
      } else {
        field := NewSchema(SchemaKind.Any, "");
      }
      PushSchema(field);
    }

    /**
     * `key`'s value recorded: an `any` field of that name whose value came
     * out concrete is replaced by the value's schema (renamed to `key`); a
     * key the schema lacks gets a new field of the value's kind and type
     * name; the value is stored under `key`.
     */
    method StoreNamed(node: Node, key: string, val: Node)
      requires Valid() && node.schema in Schemas && val.schema in Schemas
      modifies this`Schemas, node`fields, node.schema, val.schema`name
      ensures Valid() && old(Schemas) <= Schemas && fresh(Schemas - old(Schemas))
      ensures node.fields == Put(old(node.fields), key, val)
      ensures key != "" ==> key in node.schema.fieldsMap
      ensures key !in old(node.schema.fieldsMap) ==>
        Inferred(node.schema, old(node.schema.fieldsList), old(node.schema.fieldsMap), key, old(val.schema.Shape()), old(val.schema.element))
    {
      SpecialiseField(node.schema, key, val);
      if key !in node.schema.fieldsMap {
        InferField(node.schema, key, val.schema);
      }
      PutField(node, key, val);
    }

    /**
     * When `key`'s field is `any` and the value's schema is not, the
     * value's schema takes the name `key` and replaces the field in place:
     * same position in the field list, same key in the map.
     */
    method SpecialiseField(current: Schema, key: string, val: Node)
      requires Valid() && current in Schemas && val.schema in Schemas
      modifies current, val.schema`name
      ensures Valid()
      ensures var s := old(val.schema); var fires := old(!s.IsAny() && key in current.fieldsMap && current.fieldsMap[key].IsAny());
        && (fires ==> (s.name == key && current.kind == old(current.kind)
              && current.fieldsMap == old(current.fieldsMap)[key := s]
              && var prev := old(current.fieldsMap[key]);
                 if prev in old(current.fieldsList)
                 then current.fieldsList == old(current.fieldsList)[IndexOf(old(current.fieldsList), prev) := s]
                 else current.fieldsList == old(current.fieldsList) + [s]))
        && (!fires ==> unchanged(current) && s.name == old(s.name))
    {
      var s := val.schema;
      if !s.IsAny() && key in current.fieldsMap && current.fieldsMap[key].IsAny() {
        s.name := key;
        label named:
        var _ := current.ReplaceField(s);
        forall t | t in Schemas ensures Closed(t) { assert old@named(Closed(t)); }
      }
    }

    /**
     * `decode`: leading metadata, the schema headers, the root node (a null
     * node when the text ends first) read with the last header as its
     * context, then trailing metadata onto the root.  A root node whose
     * schema came out `any` is bound to the header schema; without a header
     * the result's schema is the node's own.
     */
    method Decode(ghost fs: seq<(string, string)>, ghost end: nat) returns (result: DecodeResult, ghost bound: map<string, Schema>)
      requires Valid() && nodeStack == []
      modifies this, Schemas
      ensures var k := SkipSpace(text, old(i));
        k < |text| && ScalarStart(text[k]) ==> result.node.value == PrimitiveAt(text, k).0 && result.schema == result.node.schema
      ensures var k := SkipSpace(text, old(i));
        RegisteredRef(text, k, old(named)) ==> result.schema == old(named)[IdentAt(text, k + 1)]
      ensures var k := SkipSpace(text, old(i));
        DefinedThenUsed(text, k, fs, end) ==> var name := IdentAt(text, k + 1);
          name in bound && result.schema == bound[name] && fresh(result.schema)
      ensures Valid() && nodeStack == []
      ensures result.errors == errors && result.warnings == warnings && |result.errors| <= MaxErrors
      ensures fresh(result.node) && result.schema in Schemas
      ensures result.node.schema != null && (result.node.schema == result.schema || !result.node.schema.IsAny())
    {
      ParseMeta(NoTarget);
      result, bound := Document(fs, end);
    }

    /**
     * `decode` after the leading metadata: the headers, then the root.  A
     * primitive at the cursor is the root's value; a registered `@Name`
     * header alone binds the result to the registered schema.
     */
    method Document(ghost fs: seq<(string, string)>, ghost end: nat) returns (result: DecodeResult, ghost bound: map<string, Schema>)
      requires Valid() && nodeStack == []
      modifies this, Schemas
      ensures old(i) < |text| && ScalarStart(text[old(i)]) ==>
        result.node.value == PrimitiveAt(text, old(i)).0 && result.schema == result.node.schema
      ensures RegisteredRef(text, old(i), old(named)) ==> result.schema == old(named)[IdentAt(text, old(i) + 1)]
      ensures DefinedThenUsed(text, old(i), fs, end) ==> var name := IdentAt(text, old(i) + 1);
        name in bound && result.schema == bound[name] && fresh(result.schema)
      ensures Valid() && nodeStack == []
      ensures result.errors == errors && result.warnings == warnings && |result.errors| <= MaxErrors
      ensures fresh(result.node) && result.schema in Schemas
      ensures result.node.schema != null && (result.node.schema == result.schema || !result.node.schema.IsAny())
    {
      ghost var at := i;
      ghost var run := DefinedThenUsed(text, at, fs, end);
      if run {
        UsedAgainRefersTo(text, at, SkipSpace(text, end));
      }
      var header := Headers(fs, end, run);
      bound := named;
      result := Root(header);
    }

    /**
     * `decode` after the headers: the root node, its schema, and the
     * trailing metadata.  Without a header a primitive root is the value at
     * the cursor and the result's schema is the node's own; with one, the
     * result's schema is the header.
     */
    method Root(header: Schema?) returns (result: DecodeResult)
      requires Valid() && nodeStack == [] && (header != null ==> header in Schemas)
      modifies this, Schemas
      ensures Valid() && nodeStack == []
      ensures result.errors == errors && result.warnings == warnings && |result.errors| <= MaxErrors
      ensures fresh(result.node) && result.schema in Schemas
      ensures result.node.schema != null && (result.node.schema == result.schema || !result.node.schema.IsAny())
      ensures header == null && old(i) < |text| && ScalarStart(text[old(i)]) ==>
        result.node.value == PrimitiveAt(text, old(i)).0 && result.schema == result.node.schema
      ensures header != null ==> result.schema == header
    {
      var node := RootNode(header);
      var schema := RootSchema(header, node);
      Trailer(node);
      result := DecodeResult(node, schema, errors, warnings);
    }

    /**
     * `decode`'s first loop: schema definitions and headers before the root
     * node; the last header is the root's context.  A flat definition
     * `@Name<fs>` then `@Name` binds the root to the record just defined.
     */
    method Headers(ghost fs: seq<(string, string)>, ghost end: nat, ghost run: bool) returns (root: Schema?)
      requires Valid()
      requires run ==> DefinitionBeforeHeader(text, i, fs, end)
      requires run ==> RefersTo(text, SkipSpace(text, end), IdentAt(text, i + 1))
      modifies this`i, this`line, this`col, this`errors, this`warnings, this`pending
      modifies this`Schemas, this`named, this`schemaStack, Schemas`name, Schemas`comments, Schemas`attr, Schemas`tags, Schemas`required
      ensures Valid() && old(Schemas) <= Schemas && fresh(Schemas - old(Schemas))
      ensures schemaStack == old(schemaStack) && old(i) <= i && (root != null ==> root in Schemas)
      ensures old(i) < |text| && text[old(i)] != '<' && text[old(i)] != '@' ==> root == null && i == old(i)
      ensures RegisteredRef(text, old(i), old(named)) ==> root == old(named)[IdentAt(text, old(i) + 1)]
      ensures run ==> var name := IdentAt(text, old(i) + 1);
        name in named && root == named[name] && fresh(root)
    {
      root := null;
      ghost var first := old(i) < |text| && ((text[old(i)] != '<' && text[old(i)] != '@') || RegisteredRef(text, old(i), old(named)));
      // A definition then a use of the same name: the first pass registers
      // the record, the second binds the root to it.
      ghost var name := if run then IdentAt(text, i + 1) else "";
      ghost var step := 0;
      var stop := false;
      while !stop && i < |text|
        invariant Valid() && old(Schemas) <= Schemas && fresh(Schemas - old(Schemas))
        invariant schemaStack == old(schemaStack) && old(i) <= i && (root != null ==> root in Schemas)
        invariant first ==> stop || (i == old(i) && root == null && named == old(named))
        invariant first && old(i) < |text| && text[old(i)] != '<' && text[old(i)] != '@' ==> root == null && i == old(i)
        invariant first && stop && RegisteredRef(text, old(i), old(named)) ==> root == old(named)[IdentAt(text, old(i) + 1)]
        invariant run ==> step <= 2
        invariant run && step == 0 ==> !stop && i == old(i) && root == null
        invariant run && step == 1 ==> !stop && i == SkipSpace(text, end) && name in named && named[name] !in old(Schemas)
        invariant run && step == 2 ==> stop && name in named && root == named[name] && root !in old(Schemas)
        decreases |text| - i, if stop then 0 else 1
      {
        root, stop := Header(root, fs, end, run && step == 0, run && step == 1, name);
        step := step + 1;
      }
    }

    /**
     * One header: `<...>` is the root's context and ends the headers when
     * `(`, `{` or `[` follows; `@Name` (with or without a body) ends them
     * as the root's context unless another `@` or `<` follows; anything
     * else is the start of the data.
     */
    method Header(root: Schema?, ghost fs: seq<(string, string)>, ghost end: nat, ghost def: bool, ghost use: bool, ghost name: string)
      returns (root': Schema?, stop: bool)
      requires Valid() && i < |text| && (root != null ==> root in Schemas)
      requires def ==> DefinitionBeforeHeader(text, i, fs, end)
      requires use ==> RefersTo(text, i, name) && name in named
      modifies this`i, this`line, this`col, this`errors, this`warnings, this`pending
      modifies this`Schemas, this`named, this`schemaStack, Schemas`name, Schemas`comments, Schemas`attr, Schemas`tags, Schemas`required
      ensures Valid() && old(Schemas) <= Schemas && fresh(Schemas - old(Schemas))
      ensures schemaStack == old(schemaStack) && old(i) <= i && (root' != null ==> root' in Schemas)
      ensures text[old(i)] == '<' ==> (old(i) < i && root' != null
        && stop == (i < |text| && (text[i] == '(' || text[i] == '{' || text[i] == '[')))
      ensures text[old(i)] == '@' ==> (old(i) < i
        && (stop ==> root' != null)
        && (!stop <==> i < |text| && (text[i] == '@' || text[i] == '<'))
        && (!stop ==> root' == root))
      ensures text[old(i)] != '<' && text[old(i)] != '@' ==> stop && root' == root && i == old(i)
      ensures RegisteredRef(text, old(i), old(named)) ==>
        && stop && root' == old(named)[IdentAt(text, old(i) + 1)] && i == SkipSpace(text, IdentAtEnd(text, old(i) + 1))
        && named == old(named)
      ensures def ==> var name := IdentAt(text, old(i) + 1);
        && !stop && root' == root && i == SkipSpace(text, end) && name in named && fresh(named[name])
      ensures use ==> stop && named == old(named) && root' == named[name]
    {
      ghost var at, reg := i, named;
      if text[i] == '<' {
        assert !RegisteredRef(text, at, reg) && !def && !use;
        root', stop := BodyHeader();
      } else if text[i] == '@' {
        root', stop := AtHeader(root, fs, end, def);
        if use {
          UsedAfterHeader(text, at, name, reg, named, root', stop);
        }
      } else {
        assert !RegisteredRef(text, at, reg) && !def && !use;
        root', stop := root, true;
      }
    }

    /**
     * A header `<...>`: the root's context, with the metadata after it; it
     * ends the headers when `(`, `{` or `[` follows.
     */
    method BodyHeader() returns (root': Schema, stop: bool)
      requires Valid() && i < |text| && text[i] == '<'
      modifies this`i, this`line, this`col, this`errors, this`warnings, this`pending
      modifies this`Schemas, this`named, this`schemaStack, Schemas`name, Schemas`comments, Schemas`attr, Schemas`tags, Schemas`required
      ensures Valid() && old(Schemas) <= Schemas && fresh(Schemas - old(Schemas))
      ensures schemaStack == old(schemaStack) && old(i) < i && root' in Schemas
      ensures stop == (i < |text| && (text[i] == '(' || text[i] == '{' || text[i] == '['))
    {
      root' := ParseSchemaBody("");
      ParseMeta(NoTarget);
      stop := i < |text| && (text[i] == '(' || text[i] == '{' || text[i] == '[');
    }

    /**
     * A header `@Name`: the definition or reference, then the metadata
     * after it; the root's context when the data (not another header)
     * follows.
     */
    method AtHeader(root: Schema?, ghost fs: seq<(string, string)>, ghost end: nat, ghost def: bool) returns (root': Schema?, stop: bool)
      requires Valid() && i < |text| && text[i] == '@' && (root != null ==> root in Schemas)
      requires def ==> DefinitionBeforeHeader(text, i, fs, end)
      modifies this`i, this`line, this`col, this`errors, this`warnings, this`pending
      modifies this`Schemas, this`named, this`schemaStack, Schemas`name, Schemas`comments, Schemas`attr, Schemas`tags, Schemas`required
      ensures Valid() && old(Schemas) <= Schemas && fresh(Schemas - old(Schemas))
      ensures schemaStack == old(schemaStack) && old(i) < i && (root' != null ==> root' in Schemas)
      ensures stop ==> root' != null
      ensures !stop <==> i < |text| && (text[i] == '@' || text[i] == '<')
      ensures !stop ==> root' == root
      ensures RegisteredRef(text, old(i), old(named)) ==>
        && stop && root' == old(named)[IdentAt(text, old(i) + 1)] && i == SkipSpace(text, IdentAtEnd(text, old(i) + 1))
        && named == old(named)
      ensures def ==> var name := IdentAt(text, old(i) + 1);
        && !stop && root' == root && i == SkipSpace(text, end) && name in named && fresh(named[name])
    {
      var schema := HeaderSchema(fs, end);
      if i < |text| && (text[i] == '@' || text[i] == '<') {
        root', stop := root, false;
      } else {
        root', stop := schema, true;
      }
    }

    /** `@Name` read as a header's schema, with the metadata after it. */
    method HeaderSchema(ghost fs: seq<(string, string)>, ghost end: nat) returns (schema: Schema)
      requires Valid() && i < |text| && text[i] == '@'
      modifies this`i, this`line, this`col, this`errors, this`warnings, this`pending
      modifies this`Schemas, this`named, this`schemaStack, Schemas`name, Schemas`comments, Schemas`attr, Schemas`tags, Schemas`required
      ensures Valid() && old(Schemas) <= Schemas && fresh(Schemas - old(Schemas))
      ensures schemaStack == old(schemaStack) && old(i) < i && schema in Schemas
      ensures RegisteredRef(text, old(i), old(named)) ==>
        && schema == old(named)[IdentAt(text, old(i) + 1)] && i == SkipSpace(text, IdentAtEnd(text, old(i) + 1))
        && named == old(named)
      ensures var j := SkipSpace(text, IdentAtEnd(text, old(i) + 1));
        j < |text| && text[j] == '<' ==> var name := IdentAt(text, old(i) + 1);
          name in named && schema == named[name] && fresh(schema)
      ensures var j := SkipSpace(text, IdentAtEnd(text, old(i) + 1));
        j < |text| && text[j] == '<' && FlatRest(text, j + 1, '>', false) == Some((fs, end))
        && SkipSpace(text, end) < |text| && text[SkipSpace(text, end)] == '@' ==>
          i == SkipSpace(text, end)
    {
      schema := HeaderRef(fs, end);
      SkipMeta();
    }

    /**
     * `@Name` as a header, up to the metadata after it: a registered name
     * gives its schema as it was; a definition `@Name<...>` gives the new
     * schema, registered, and a flat body `fs` read up to `end` leaves the
     * cursor there.
     */
    method HeaderRef(ghost fs: seq<(string, string)>, ghost end: nat) returns (schema: Schema)
      requires Valid() && i < |text| && text[i] == '@'
      modifies this`i, this`line, this`col, this`errors, this`warnings, this`pending
      modifies this`Schemas, this`named, this`schemaStack, Schemas`name, Schemas`comments, Schemas`attr, Schemas`tags, Schemas`required
      ensures Valid() && old(Schemas) <= Schemas && fresh(Schemas - old(Schemas))
      ensures schemaStack == old(schemaStack) && old(i) < i && schema in Schemas
      ensures RegisteredRef(text, old(i), old(named)) ==>
        && schema == old(named)[IdentAt(text, old(i) + 1)] && i == SkipSpace(text, IdentAtEnd(text, old(i) + 1))
        && named == old(named)
      ensures var j := SkipSpace(text, IdentAtEnd(text, old(i) + 1));
        j < |text| && text[j] == '<' ==> var name := IdentAt(text, old(i) + 1);
          name in named && schema == named[name] && fresh(schema)
      ensures var j := SkipSpace(text, IdentAtEnd(text, old(i) + 1));
        j < |text| && text[j] == '<' && FlatRest(text, j + 1, '>', false) == Some((fs, end)) ==> i == end
    {
      ghost var n := IdentAt(text, i + 1);
      ghost var j := SkipSpace(text, IdentAtEnd(text, i + 1));
      schema := ParseSchemaAtRef();
      assert AtRead(schema, n, j, old(Schemas));
    }

    /** Metadata with no consumer: only the cursor, diagnostics and pending metadata change. */
    method SkipMeta()
      requires Valid()
      modifies this`i, this`line, this`col, this`errors, this`warnings, this`pending
      ensures Valid() && old(i) <= i
      ensures var k := SkipSpace(text, old(i)); k < |text| && !MetaStart(text[k]) ==> i == k
    {
      ParseMeta(NoTarget);
    }

    /** The root node, read with the header schema (if any) pushed as its context; a null node when the text has ended. */
    method RootNode(root: Schema?) returns (node: Node)
      requires Valid() && nodeStack == [] && (root != null ==> root in Schemas)
      modifies this, Schemas
      ensures Valid() && old(Schemas) <= Schemas && fresh(Schemas - old(Schemas))
      ensures fresh(node) && node.schema in Schemas && nodeStack == [node]
      ensures old(i) < |text| && ScalarStart(text[old(i)]) ==> node.value == PrimitiveAt(text, old(i)).0
    {
      if root != null {
        PushSchema(root);
      }
      if i == |text| {
        node := CreateNode(Null);
      } else {
        node := ReadNode();
      }
    }

    /**
     * With a header: the schema stack popped, and a root node whose schema
     * is `any` bound to the header schema, which is the result's schema.
     * Without one, the node's own schema is the result's.
     */
    method RootSchema(root: Schema?, node: Node) returns (schema: Schema)
      requires Valid() && node.schema in Schemas && (root != null ==> root in Schemas)
      modifies this`schemaStack, PopFrame()`comments, PopFrame()`attr, PopFrame()`tags, PopFrame()`required, node`schema
      ensures Valid() && schema in Schemas && nodeStack == old(nodeStack)
      ensures root == null ==> schema == node.schema && node.schema == old(node.schema)
      ensures root != null ==> schema == root && (node.schema == root || (node.schema == old(node.schema) && !node.schema.IsAny()))
    {
      if root == null {
        return node.schema;
      }
      var _ := PopSchema();
      if node.schema.IsAny() {
        SetNodeSchema(node, root);
      }
      schema := root;
    }

    /** Trailing metadata onto the root node, which is then popped. */
    method Trailer(node: Node)
      requires Valid() && nodeStack == [node]
      modifies this`i, this`line, this`col, this`errors, this`warnings, this`pending, this`nodeStack
      modifies node`comments, node`attr, node`tags
      ensures Valid() && nodeStack == []
    {
      ParseMeta(NoTarget);
      ApplyPendingToNode(node);
      var _ := PopNode();
    }
  }

  /** `Decoder(text, schema).decode()`: the schema text is read as a prefix of the data. */
  method DecodeText(text: string, schema: string, ghost fs: seq<(string, string)>, ghost end: nat) returns (result: DecodeResult, ghost bound: map<string, Schema>)
    ensures |result.errors| <= MaxErrors
    ensures result.node.schema != null && (result.node.schema == result.schema || !result.node.schema.IsAny())
    ensures var t := schema + text; var k := SkipSpace(t, 0);
      k < |t| && ScalarStart(t[k]) ==> result.node.value == PrimitiveAt(t, k).0 && result.schema == result.node.schema
    ensures var t := schema + text; var k := SkipSpace(t, 0);
      DefinedThenUsed(t, k, fs, end) ==> var name := IdentAt(t, k + 1);
        name in bound && result.schema == bound[name] && fresh(result.schema)
  {
    var d := new Decoder(text, schema);
    ghost var t, k := d.text, SkipSpace(d.text, d.i);
    assert t == schema + text && k == SkipSpace(t, 0);
    result, bound := d.Decode(fs, end);
  }
}
