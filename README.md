# ADF (AI.DATA-FORMAT) data library — a Dafny model

This project models the core of the Python ADF library
(`python/src/arkadia/ai/data/`). ADF is a compact text format for typed
data. A document opens with optional schema headers (`<id:number,name:string>`,
`@User<...>`). The data follows: positional records `(1,"a")`, named
records `{id: 1}`, lists `[1, 2]` and scalars. Comments `/* ... */`,
metadata blocks `/ $key=value #tag !required /` and inline modifiers can
stand in front of any value or field.

The model covers these parts of the library:

- **Metadata** (`meta.dfy`). `MetaData` holds comments, attributes, tags
  and `required`. `MetaInfo` is the decoder's scratch bag. `ApplyCommon`
  and `ApplyInfo` are the two merge rules of `Meta.apply_common_meta` and
  `MetaInfo.apply_meta`. The attribute dict is an ordered association
  list (`ordered_map.dfy`) with Python's `d[k] = v` and `dict.update`,
  because the encoder prints attributes in dict order.
- **Schema** (`schema.dfy`). `Schema` is a class. Schemas are shared on
  purpose: a named schema is the same object everywhere it is used, and
  `add_field`/`replace_field` change it in place. The field list and the
  name map are kept side by side, as the source keeps them.
- **Node** (`node.dfy`). `Node` is a class: a value, an ordered
  `name → child` association, a list of elements, a schema and metadata.
  `Node.dict()` is a recursive function.
- **Decoder** (`decoder.dfy`, with the pure scanners of `scan.dfy`).
  `Decoder` is a class. It holds the text, the cursor, the pending
  metadata, the schema and node stacks, the named-schema registry, and
  the errors (capped at fifty) and warnings. Every `_parse_*` and
  `_read_*` method is a method. Where the source loops, the model has a
  `while` loop with invariants, and one pass of the loop is a method of
  its own. The lexical
  steps are proved against pure specification functions on the text
  (`SkipSpace`, `IdentAt`, `NumberScan`, `QuotedScan`, `CommentScan`,
  `MetaBlockFrom`, `PrimitiveAt`, ...). Schema bodies are proved against
  `FlatRest`, a reference reading of a body made of `name: primitive`
  fields. For other bodies the contracts state the type dispatch and what
  each entry does, not the whole schema built. The schema-typing rules of
  `_create_node`, `_parse_list`, `_parse_positional_record` and
  `_parse_named_record` are stated on the shared schema objects.
- **Encoder** (`encoder.dfy`). `Encoder` is a class holding the
  configuration. The text-building helpers are functions. `encode_schema`
  is a method, because it moves a list element's metadata onto the list in
  place.
- **parse.py and encode.py** (`parse.dfy`, `encode.dfy`). `parse` turns a
  host value (`Values.Value`) into fresh nodes and schemas, including the
  first-name-wins union of record fields for a list of dicts. `encode`
  merges the configuration with `DEFAULT_CONFIG` and parses non-node data
  before encoding it.
- **Round trip** (`roundtrip.dfy`). The text the encoder writes for a
  readable scalar is read back by the decoder's own readers, and so is the
  compact data of a flat record. The decoder's result for a scalar text is
  that scalar.

Integers are unbounded in the model. The limit that recent CPython puts
on converting between `int` and decimal text is not modelled (see Left
out). Characters are Dafny
`char`s, and strings are `seq<char>`.

## Model

| member | source | states |
|---|---|---|
| Meta.Truthy | python/src/arkadia/ai/data/Meta.py:35-40 | `bool(info)` is false exactly when comments, attributes and tags are empty and `required` is false |
| Meta.ClearCommon | python/src/arkadia/ai/data/Meta.py:90-96 | comments, attributes and tags become empty; `required` is untouched |
| Meta.ApplyCommonSpec | python/src/arkadia/ai/data/Meta.py:99-115 | the old comments and tags stay first and the incoming ones follow in order; old attribute keys keep their positions and new keys are appended in incoming order; an incoming key's value wins and every other key keeps its value; `required` is not touched |
| Meta.ApplyInfoOverwritesRequired | python/src/arkadia/ai/data/Meta.py:33 | `MetaInfo.apply_meta` sets `required` to the incoming value, so it can go from true to false |
| Meta.ApplyCommonKeepsKeysDistinct | python/src/arkadia/ai/data/Meta.py:106 | merging never creates a duplicate attribute key |
| Meta.MetaInfo.constructor | python/src/arkadia/ai/data/Meta.py:10-17 | a new `MetaInfo` is empty and not `required` |
| Meta.MetaInfo.ApplyMeta | python/src/arkadia/ai/data/Meta.py:19-33 | the bag's new content is the `ApplyInfo` merge of its old content with the incoming one |
| OrderedMap.Get | python/src/arkadia/ai/data/Encoder.py:466 | `d.get(k)` finds a value exactly when `k` is a key, and the value found is stored next to `k` |
| OrderedMap.GetAt | python/src/arkadia/ai/data/Encoder.py:466 | with distinct keys, the value found under a key is the one stored next to it |
| OrderedMap.Put | python/src/arkadia/ai/data/Decoder.py:809 | `d[k] = v` keeps the key order (appending `k` when it is new); `k` reads `v` and every other key reads as before |
| OrderedMap.PutNew | python/src/arkadia/ai/data/parse.py:116 | storing under a new key appends one entry |
| OrderedMap.UpdateKeys | python/src/arkadia/ai/data/Meta.py:25-26 | `dict.update` keeps every existing key in place and appends the new keys in the order the other dict lists them |
| OrderedMap.UpdateGet | python/src/arkadia/ai/data/Meta.py:25-26 | after `update`, a key of the other dict reads its value there and any other key keeps its old value |
| OrderedMap.UpdateDistinct | python/src/arkadia/ai/data/Meta.py:25-26 | `update` never creates duplicate keys |
| OrderedMap.UpdateSnoc | python/src/arkadia/ai/data/Decoder.py:809 | putting one more entry after a run of entries is one more `d[k] = v` |
| OrderedMap.UpdateEmpty | python/src/arkadia/ai/data/Decoder.py:705-716 | entries with distinct keys, put one by one into an empty dict, give exactly those entries in that order |
| OrderedMap.UpdateFromEmpty | python/src/arkadia/ai/data/Decoder.py:738-809 | a dict filled from empty entry by entry has its keys in order of first appearance, and holds exactly the entries when their keys are distinct |
| Schemas.IsAnyByKind | python/src/arkadia/ai/data/Schema.py:63-69 | a list is never `any`, an `Any` schema always is, and a primitive or record is `any` exactly when its type name is `any` |
| Schemas.IndexOf | python/src/arkadia/ai/data/Schema.py:116 | `list.index` returns a position that holds the item |
| Schemas.IndexOfFirst | python/src/arkadia/ai/data/Schema.py:116 | no earlier position holds the item |
| Schemas.FieldName | python/src/arkadia/ai/data/Schema.py:78-79 | the name `add_field` settles on is never empty, and a given name is kept |
| Schemas.Schema.constructor | python/src/arkadia/ai/data/Schema.py:15-52 | kind, name and element are as given; a missing type name becomes `any`; no fields and no metadata |
| Schemas.Schema.WithFields | python/src/arkadia/ai/data/Schema.py:53-55 | the given fields are added in order by `add_field`: the field list is exactly them, each is named (by position when unnamed) and mapped, and any field makes the schema a record |
| Schemas.Schema.AddFields | python/src/arkadia/ai/data/Schema.py:53-55 | the constructor's loop leaves the list equal to the given fields, each named and mapped, and changes nothing else |
| Schemas.Schema.ClearFields | python/src/arkadia/ai/data/Schema.py:71-73 | the field list and map become empty and nothing else changes |
| Schemas.Schema.AddField | python/src/arkadia/ai/data/Schema.py:75-81 | the schema becomes a record; the field is named (the field count when unnamed), appended last and mapped by that name; type name, element and metadata are unchanged |
| Schemas.Schema.ReplaceField | python/src/arkadia/ai/data/Schema.py:102-127 | an unnamed field raises `ValueError` and changes nothing; a known name puts the field at the old field's index (appended when the old one is not listed) and remaps the name; an unknown name adds it as `add_field` does |
| Schemas.Schema.ClearMeta | python/src/arkadia/ai/data/Schema.py:133-135 | all metadata is cleared and `required` is reset; shape, links and fields are unchanged |
| Schemas.Schema.ApplyMeta | python/src/arkadia/ai/data/Schema.py:137-146 | the common merge, with `required` only ever switched on; shape, links and fields are unchanged |
| Nodes.Node.constructor | python/src/arkadia/ai/data/Node.py:23-52 | schema, name, value, fields and elements are as given (the omitted ones as "", empty and empty); no metadata |
| Nodes.Node.ClearMeta | python/src/arkadia/ai/data/Node.py:75-76 | only comments, attributes and tags are cleared; the node's data is unchanged |
| Nodes.Node.ApplyMeta | python/src/arkadia/ai/data/Node.py:78-83 | only the common merge applies, so a node never gains `required`; the node's data is unchanged |
| Nodes.Node.Dict | python/src/arkadia/ai/data/Node.py:89-111 | a primitive gives its value; a list gives a list of the same length; a record gives a dict with exactly the keys of `fields`, in order; any other kind gives its value |
| Nodes.DictFuel | python/src/arkadia/ai/data/Node.py:89-111 | more recursion depth never changes a flattening that succeeded |
| Scan.SkipSpace | python/src/arkadia/ai/data/Decoder.py:1343-1355 | the first position at or after `i` that is not whitespace; everything skipped is whitespace |
| Scan.IdentRest | python/src/arkadia/ai/data/Decoder.py:1036-1045 | the run of `[a-zA-Z0-9_]` characters is maximal |
| Scan.IdentEnd | python/src/arkadia/ai/data/Decoder.py:1027-1048 | an identifier is read exactly when `[a-zA-Z_]` starts there, and it extends over identifier characters as far as they go |
| Scan.IdentAtShape | python/src/arkadia/ai/data/Decoder.py:1027-1048 | `_parse_ident` returns "" exactly when it consumes nothing past the whitespace; otherwise the identifier starts with a letter or `_` and holds only identifier characters |
| Scan.DigitsEnd | python/src/arkadia/ai/data/Decoder.py:1160-1162 | a maximal run of digits |
| Scan.NumberKind | python/src/arkadia/ai/data/Decoder.py:1153-1188 | a converted number is an `int` exactly when neither `.` nor an exponent was read; a float keeps its text; text that does not convert gives 0 |
| Scan.NumberAtIntToString | python/src/arkadia/ai/data/Decoder.py:1153-1188 | `str(n)`, followed by nothing that continues a number, is scanned to its end and read back as `n` |
| Scan.LoneMinus | python/src/arkadia/ai/data/Decoder.py:1180-1187 | a lone `-` is one character long and does not convert |
| Scan.Unescape | python/src/arkadia/ai/data/Decoder.py:1130-1142 | an escaped character other than `n`, `t` and `r` stands for itself |
| Scan.QuotedScan | python/src/arkadia/ai/data/Decoder.py:1119-1151 | the scan stops at a `"` or at the end of the text |
| Scan.CommentScan | python/src/arkadia/ai/data/Decoder.py:855-900 | the scan ends with the comment closed (nesting 0) or at the end of the text |
| Scan.LineAtCountsNewlines | python/src/arkadia/ai/data/Decoder.py:1314-1336 | the line counter is the number of newlines passed |
| Scan.ColAtSinceNewline | python/src/arkadia/ai/data/Decoder.py:1314-1336 | the column counter is the distance from the last newline passed, or from the start of the text |
| Text.DigitsValueOfDigits | python/src/arkadia/ai/data/Encoder.py:353 | the decimal digits of `n` read back as `n` |
| Text.IntToStringInjective | python/src/arkadia/ai/data/Encoder.py:353 | distinct integers never render to the same `str()` text |
| Text.Spaces | python/src/arkadia/ai/data/Encoder.py:112 | `" " * n` is `n` spaces, and empty for `n <= 0` |
| Text.JoinEnds | python/src/arkadia/ai/data/Encoder.py:379-387 | a join opens with its first part and closes with its last |
| Text.JoinPair | python/src/arkadia/ai/data/Encoder.py:303 | joining two parts puts the separator between them |
| Text.StripLeftSuffix | python/src/arkadia/ai/data/Encoder.py:282 | `lstrip` keeps the suffix from the first non-white character and drops only white space |
| Text.StripRightPrefix | python/src/arkadia/ai/data/Encoder.py:282 | `rstrip` keeps the prefix up to the last non-white character and drops only white space |
| Text.StripWord | python/src/arkadia/ai/data/Encoder.py:416 | a text without white space at either end is its own strip |
| Text.ReplaceAbsent | python/src/arkadia/ai/data/Encoder.py:359 | a pattern that does not occur is never replaced |
| Text.ReplaceCharCons | python/src/arkadia/ai/data/Encoder.py:359 | replacing one character works character by character |
| Text.ReplaceCharConcat | python/src/arkadia/ai/data/Encoder.py:359 | replacing one character distributes over concatenation |
| Decoding.Logged | python/src/arkadia/ai/data/Decoder.py:1389-1395 | an error is appended while fewer than fifty are recorded, and dropped after that |
| Decoding.LoggedBounded | python/src/arkadia/ai/data/Decoder.py:128 | the error list never holds more than `MAX_ERRORS` = 50 entries, and logging only ever extends it |
| Decoding.Keyword | python/src/arkadia/ai/data/Decoder.py:1076-1083 | `true`/`false` are booleans and `null` is None, exactly; any other bare word is that string |
| Decoding.Classify | python/src/arkadia/ai/data/Decoder.py:929-972 | the corrected meta-block decision never gets stuck: it ends exactly at the end of the text, starts an implicit attribute only where an identifier starts, closes only at `/`, and agrees with the source's decision everywhere else |
| Decoding.ImplicitAttributeStalls | python/src/arkadia/ai/data/Decoder.py:955-968 | on `/1/` the source starts an implicit attribute at the digit, reads an empty identifier and returns to the same position (see Findings) |
| Decoding.OpenBlockAtEndCrashes | python/src/arkadia/ai/data/Decoder.py:929-971 | on `/ ` at the end of the text the source's decision is stuck on a missing character, where `Classify` ends the block (see Findings) |
| Decoding.EntryAt | python/src/arkadia/ai/data/Decoder.py:930-972 | one block entry always moves on: a comment is appended stripped, `#tag` is appended, `!required` sets the flag and no other flag does, only `$key`/implicit attributes touch the attributes (and never drop a key), and an unexpected character is skipped |
| Decoding.ModifierAt | python/src/arkadia/ai/data/Decoder.py:903-918 | an inline modifier always moves on; `#` appends a tag, `!required` sets the flag, only `$` touches attributes, and comments are untouched |
| Decoding.BlockStart | python/src/arkadia/ai/data/Decoder.py:925 | the block's items start past the opening `/` exactly when it is there, else where the cursor is |
| Decoding.MetaBlockEnds | python/src/arkadia/ai/data/Decoder.py:930-972 | the block loop stops only just past a closing `/` or at the end of the text |
| Decoding.MetaBlockKeeps | python/src/arkadia/ai/data/Decoder.py:930-972 | a block only adds: earlier comments and tags stay in front, a set `required` stays set, and no attribute key is lost |
| Decoding.PrimitiveNameMapping | python/src/arkadia/ai/data/Decoder.py:117-127 | exactly the seven primitive names are known; `int` and `float` map to `number` and the rest to themselves |
| Decoding.NodeSchemaChoice | python/src/arkadia/ai/data/Decoder.py:1253-1298 | an `any` context adopts the inferred schema; otherwise the context is kept exactly when its type name equals the inferred one, or is `number` for a float; None keeps a record or list context and otherwise gets a new `null` primitive |
| Decoding.SettledKeepsConcrete | python/src/arkadia/ai/data/Decoder.py:638-639 | once the list element is concrete, later children never replace it |
| Decoding.SettlesOnFirstConcrete | python/src/arkadia/ai/data/Decoder.py:638-639 | an `any` element settles on the first child whose schema is concrete |
| Decoding.SettledStaysAny | python/src/arkadia/ai/data/Decoder.py:638-639 | without a concrete child the element is the last child's schema, or stays as it was |
| Decoding.Decoder.constructor | python/src/arkadia/ai/data/Decoder.py:130-156 | the schema text is read in front of the data, the cursor is at 0, and every stack, registry and list starts empty |
| Decoding.Decoder.TopSchema | python/src/arkadia/ai/data/Decoder.py:1196-1197 | the `schema` property is null exactly when the schema stack is empty |
| Decoding.Decoder.TopNode | python/src/arkadia/ai/data/Decoder.py:1239-1240 | the `node` property is null exactly when the node stack is empty |
| Decoding.Decoder.Advance | python/src/arkadia/ai/data/Decoder.py:1314-1336 | the cursor moves `n` characters on, stopping at the end of the text, with line and column kept as `LineAt`/`ColAt` |
| Decoding.Decoder.AddError | python/src/arkadia/ai/data/Decoder.py:1389-1395 | the error is recorded at the cursor unless fifty are already recorded |
| Decoding.Decoder.AddWarning | python/src/arkadia/ai/data/Decoder.py:1397-1401 | the warning is always appended at the cursor |
| Decoding.Decoder.SkipWhitespace | python/src/arkadia/ai/data/Decoder.py:1343-1355 | the cursor ends at `SkipSpace` of where it was |
| Decoding.Decoder.Expect | python/src/arkadia/ai/data/Decoder.py:1365-1376 | success exactly when the character is at the cursor, which then moves one on; otherwise an error is logged and nothing is consumed |
| Decoding.Decoder.ParseIdent | python/src/arkadia/ai/data/Decoder.py:1027-1048 | the identifier and end position are those of `IdentAt`/`IdentAtEnd` |
| Decoding.Decoder.ReadQuotedString | python/src/arkadia/ai/data/Decoder.py:1119-1151 | the string is the `QuotedScan` of the body and the cursor ends past the closing quote; a missing closing quote logs `Expected '"'` at the end and nothing else is logged |
| Decoding.Decoder.SkipDigits | python/src/arkadia/ai/data/Decoder.py:1160-1162 | the cursor ends at `DigitsEnd` |
| Decoding.Decoder.SkipFraction | python/src/arkadia/ai/data/Decoder.py:1164-1169 | a point is reported exactly when one is read, and the cursor ends past the fraction |
| Decoding.Decoder.SkipExponentMarker | python/src/arkadia/ai/data/Decoder.py:1171-1177 | an exponent is reported exactly when `e`/`E` is read, and the cursor ends past its sign |
| Decoding.Decoder.ScanNumber | python/src/arkadia/ai/data/Decoder.py:1153-1178 | the token scanned is `NumberScan` of the start, and the cursor ends at its end |
| Decoding.Decoder.ReadNumber | python/src/arkadia/ai/data/Decoder.py:1153-1188 | the value is `NumberAt` of the start and the cursor ends past the token; "Invalid number format: <text>" is logged exactly when the text does not convert |
| Decoding.Decoder.ParsePrimitiveValue | python/src/arkadia/ai/data/Decoder.py:1087-1113 | value and end position are `PrimitiveAt` of the cursor; errors are only ever added |
| Decoding.Decoder.CommentStep | python/src/arkadia/ai/data/Decoder.py:867-893 | each pass of the comment loop moves on and keeps the final `CommentScan` result unchanged |
| Decoding.Decoder.ParseCommentBlock | python/src/arkadia/ai/data/Decoder.py:855-900 | the comment is the stripped `CommentScan` text after `/*`; an unterminated comment logs its error at the end of the text |
| Decoding.Decoder.ParseMetaAttribute | python/src/arkadia/ai/data/Decoder.py:984-998 | `$key[=value]` sets that key in the attributes to the value read (True without `=`) |
| Decoding.Decoder.ReadAttribute | python/src/arkadia/ai/data/Decoder.py:988-997 | the key, value and end position are those of `AttributeAt` |
| Decoding.Decoder.AttributeValue | python/src/arkadia/ai/data/Decoder.py:990-997 | after the key: `=` and a primitive value, or True with the cursor left in place, as `AttributeValueAt` |
| Decoding.Decoder.ParseMetaTag | python/src/arkadia/ai/data/Decoder.py:1001-1008 | `#tag` appends the identifier to the tags |
| Decoding.Decoder.ParseMetaFlag | python/src/arkadia/ai/data/Decoder.py:1011-1020 | `!required` sets the flag and warns nothing; any other flag changes nothing and warns "Unknown flag" |
| Decoding.Decoder.ParseModifierInline | python/src/arkadia/ai/data/Decoder.py:903-918 | a `$`, `#` or `!` at the cursor updates the pending metadata as `ModifierAt`; any other character is skipped and the pending metadata is unchanged |
| Decoding.Decoder.ReadModifier | python/src/arkadia/ai/data/Decoder.py:908-916 | the modifier read is `ModifierAt` of the cursor |
| Decoding.Decoder.ImplicitAttribute | python/src/arkadia/ai/data/Decoder.py:955-968 | an implicit `key=value` sets the attribute as `$key=value` would and warns "Implicit attribute" |
| Decoding.Decoder.MetaBlockItem | python/src/arkadia/ai/data/Decoder.py:930-972 | one pass of the block loop is the next step of `MetaBlockFrom`: done at the end or past `/`, else exactly `EntryAt` of the classified item |
| Decoding.Decoder.BlockEntry | python/src/arkadia/ai/data/Decoder.py:934-971 | the metadata and cursor after one entry are `EntryAt` |
| Decoding.Decoder.ReadMetaBlock | python/src/arkadia/ai/data/Decoder.py:921-972 | the metadata collected and the cursor are `MetaBlockFrom` after the opening `/` |
| Decoding.Decoder.MetaOntoTarget | python/src/arkadia/ai/data/Decoder.py:974-978 | a node gets the common merge; a schema gets the merge with `required` only switched on; without a target the block goes into the pending metadata with a warning |
| Decoding.Decoder.ParseMetaBlock | python/src/arkadia/ai/data/Decoder.py:921-981 | the block read (`MetaBlockFrom`) lands on the target as `MetaOntoTarget` says, and the cursor ends where the block ends |
| Decoding.Decoder.MetaOntoNode | python/src/arkadia/ai/data/Decoder.py:975 | the node's metadata is merged and its data is unchanged |
| Decoding.Decoder.MetaOntoSchema | python/src/arkadia/ai/data/Decoder.py:975 | the schema's metadata is merged with `required` only switched on; its shape, links and fields are unchanged |
| Decoding.Decoder.ApplyPendingToNode | python/src/arkadia/ai/data/Decoder.py:1305-1308 | the pending metadata is merged onto the node and then reset |
| Decoding.Decoder.ApplyPendingToSchema | python/src/arkadia/ai/data/Decoder.py:1305-1308 | the pending metadata is merged onto the schema and then reset |
| Decoding.Decoder.MetaLexItem | python/src/arkadia/ai/data/Decoder.py:829-848 | a block comment or an inline modifier is read into the pending metadata as `EntryAt`; anything else stops the loop with nothing consumed |
| Decoding.Decoder.MetaItem | python/src/arkadia/ai/data/Decoder.py:827-852 | one pass moves on or stops at a character that opens no metadata; a text character after the whitespace stops it with the pending metadata unchanged |
| Decoding.Decoder.ParseMeta | python/src/arkadia/ai/data/Decoder.py:823-852 | stops at the end or at a character that is neither white space nor metadata; when plain data follows the whitespace, only the whitespace is consumed |
| Decoding.Decoder.PushSchema | python/src/arkadia/ai/data/Decoder.py:1217-1220 | the schema is pushed |
| Decoding.Decoder.PopSchema | python/src/arkadia/ai/data/Decoder.py:1222-1231 | the top is popped (null on an empty stack); a popped list takes over its element's metadata, which is cleared |
| Decoding.Decoder.TakeElementMeta | python/src/arkadia/ai/data/Decoder.py:1227-1230 | the list's metadata is merged with its element's, `required` only switched on, and the element's is cleared |
| Decoding.Decoder.PushNode | python/src/arkadia/ai/data/Decoder.py:1242-1245 | the node is pushed |
| Decoding.Decoder.PopNode | python/src/arkadia/ai/data/Decoder.py:1247-1251 | the top is popped, or null on an empty stack |
| Decoding.Decoder.NewSchema | python/src/arkadia/ai/data/Decoder.py:1199-1214 | a new schema of the kind asked for, type name defaulted to `any`, without fields or metadata |
| Decoding.Decoder.CreateSchema | python/src/arkadia/ai/data/Decoder.py:1199-1214 | the new schema takes the pending metadata, which is reset, and is pushed |
| Decoding.Decoder.ContextSchema | python/src/arkadia/ai/data/Decoder.py:1253-1262 | the context is the schema on top of the stack, or a new `any` schema pushed on an empty stack |
| Decoding.Decoder.NodeSchema | python/src/arkadia/ai/data/Decoder.py:1263-1292 | the node's schema is the context or a new primitive without fields, exactly as `NodeSchemaChoice` decides |
| Decoding.Decoder.PushNewNode | python/src/arkadia/ai/data/Decoder.py:1293-1298 | a new node with this schema and value takes the pending metadata and is pushed |
| Decoding.Decoder.CreateNode | python/src/arkadia/ai/data/Decoder.py:1253-1298 | the new node holds the value, its schema follows `NodeSchemaChoice` from the context (a new schema has no fields), it takes the pending metadata and is pushed |
| Decoding.Decoder.TopTarget | python/src/arkadia/ai/data/Decoder.py:404 | the metadata target is the top schema, or none |
| Decoding.Decoder.NodeTarget | python/src/arkadia/ai/data/Decoder.py:485 | the metadata target is the top node, or none |
| Decoding.Decoder.AtName | python/src/arkadia/ai/data/Decoder.py:423-424 | past `@` and the identifier after it |
| Decoding.Decoder.AtRefName | python/src/arkadia/ai/data/Decoder.py:252-257 | past `@`, the identifier and the whitespace after it |
| Decoding.Decoder.ErrorAndSkip | python/src/arkadia/ai/data/Decoder.py:526-527 | the error is logged at the cursor and one character is skipped |
| Decoding.Decoder.ParseSchemaAtRef | python/src/arkadia/ai/data/Decoder.py:248-284 | with `<` after the name the body is registered under it; otherwise the registered schema itself is returned, or a new record named by the type name that is not registered |
| Decoding.Decoder.Definition | python/src/arkadia/ai/data/Decoder.py:259-271 | the body is a new schema registered under the name; it is a record unless its body made it a list or a primitive (a body left generic is forced to RECORD); a flat body `name: primitive, ...` gives exactly a record typed by the name with those fields, the cursor past `>` |
| Decoding.Decoder.Reference | python/src/arkadia/ai/data/Decoder.py:277-284 | a registered name gives that very schema and creates nothing; an unknown one gives a new record of that type name |
| Decoding.Decoder.ParseSchemaBody | python/src/arkadia/ai/data/Decoder.py:287-314 | without `<` a new `any` schema typed by the type name (after an error); with `<` a new schema that is not generic-kind, and for a flat body a record typed by the type name (`any` when empty) with exactly the fields read, the cursor past `>`; the schema stack is as before |
| Decoding.Decoder.DetachedSchema | python/src/arkadia/ai/data/Decoder.py:294-298 | a new `any` schema with the pending metadata, not left on the stack |
| Decoding.Decoder.ParseSchemaBodyContent | python/src/arkadia/ai/data/Decoder.py:317-396 | the content either makes the schema a list of a new element or only appends fields, and never turns it generic; over a flat body the fields appended are exactly the `(name, mapped type)` pairs read, the schema becomes a record once it has one, and the cursor ends past the end character |
| Decoding.FlatRest | python/src/arkadia/ai/data/Decoder.py:327-394 | the reference reading of a body of `name: primitive` fields as the content loop reads it (a field or the end from the start or after a comma, a comma or the end after a field); a reading that succeeds ends past its start, inside the text |
| Decoding.FlatRestStart | python/src/arkadia/ai/data/Decoder.py:327-394 | where a successful flat reading goes on: at the first non-space character, never metadata; there the end character, or a comma exactly after a field, or a field `name: primitive` whose name, mapped type and the rest after it make up the reading |
| Decoding.FlatStep | python/src/arkadia/ai/data/Decoder.py:327-394 | one pass of the content loop over a flat body keeps the fields read a prefix of the reading and what remains of the text its rest; at the end character every field has been read |
| Decoding.FlatAtCursor | python/src/arkadia/ai/data/Decoder.py:331-337 | in a flat body the end character at the cursor ends it there with no further fields; nothing else at the cursor is a `[` |
| Decoding.FlatCommaAfterField | python/src/arkadia/ai/data/Decoder.py:354-357 | short of the end of a flat body, a comma comes exactly after a field |
| Decoding.FieldAt | python/src/arkadia/ai/data/Decoder.py:362-385 | a field `name: primitive` read at a position: its name is the (non-empty) identifier there and the reading ends after it, inside the text |
| Decoding.PrimitiveTypeAt | python/src/arkadia/ai/data/Decoder.py:380-382 | `: name` with a primitive name gives the mapped type and the end of the name, and only when a `:` is there |
| Decoding.Decoder.BodyItem | python/src/arkadia/ai/data/Decoder.py:327-394 | one pass moves the cursor on; `[` makes the schema a list of a new element; otherwise fields are only appended; over a flat body the pass reads the next field, comma or end exactly as `FlatRest` does and appends the field read |
| Decoding.Decoder.BodyEntry | python/src/arkadia/ai/data/Decoder.py:355-394 | a comma merges the pending metadata onto the last field (or the schema), resets it and skips the comma; a missing name logs `Expected identifier`; a primitive name alone retypes the schema to that primitive; any other name appends a field of that name and makes the schema a record; a flat `name: primitive` appends exactly that field |
| Decoding.Decoder.Separator | python/src/arkadia/ai/data/Decoder.py:355-358 | the pending metadata is merged onto the last field (comments and tags appended, attributes updated, `required` or-ed), then reset, and the comma is skipped |
| Decoding.Decoder.EntryName | python/src/arkadia/ai/data/Decoder.py:361-367 | the name is `IdentAt`; an empty name logs "Expected identifier" and skips a character |
| Decoding.Decoder.FieldEntry | python/src/arkadia/ai/data/Decoder.py:376-394 | the field is appended to the schema's fields under its name and the schema becomes a record with its type name kept; for `name: primitive` the field is a new primitive of the mapped type and the cursor is after it |
| Decoding.Decoder.FieldDefinition | python/src/arkadia/ai/data/Decoder.py:376-385 | the field has the name and the pending metadata is consumed; without `:` it is a new primitive `any` carrying the pending metadata; a primitive type gives a new primitive of the mapped type; any other bare type name gives what that name stands for against the registry |
| Decoding.Decoder.NameField | python/src/arkadia/ai/data/Decoder.py:382-385 | the field takes the name and the pending metadata; its shape and fields are unchanged |
| Decoding.Decoder.Retype | python/src/arkadia/ai/data/Decoder.py:370-373 | the schema takes the kind and type name given |
| Decoding.Decoder.AddFieldTo | python/src/arkadia/ai/data/Decoder.py:394 | `add_field` as `Schema.AddField` states it, on the decoder's schemas |
| Decoding.Decoder.MakeList | python/src/arkadia/ai/data/Decoder.py:340-347 | the schema becomes a list of the element, without fields |
| Decoding.Decoder.ListContent | python/src/arkadia/ai/data/Decoder.py:337-352 | the schema becomes a list with no fields of a new element, its type name kept; for a flat element body the element is a record (`any` when empty) with exactly those fields |
| Decoding.Decoder.ListOfAny | python/src/arkadia/ai/data/Decoder.py:340-345 | the schema becomes a list of a new `any` element, with the pending metadata applied |
| Decoding.Decoder.ListTail | python/src/arkadia/ai/data/Decoder.py:348-351 | the pending metadata is merged onto the list schema and reset, and the closing character is skipped |
| Decoding.Decoder.ParseSchemaType | python/src/arkadia/ai/data/Decoder.py:398-474 | dispatch on the first non-space character: `[` a new list with an element; `@Name` the registered schema, a new definition or a new placeholder record; `<` a new schema that is not generic; a bare name a primitive, the registered schema, `any` or a new record |
| Decoding.Decoder.RefType | python/src/arkadia/ai/data/Decoder.py:422-448 | `@Name` as a type: with `<` the new definition registered under the name (exactly the fields of a flat body); otherwise the registered schema, or a new record placeholder with the registry unchanged |
| Decoding.Decoder.ListType | python/src/arkadia/ai/data/Decoder.py:409-419 | `[type]` gives a new list with no fields whose element is one of the decoder's schemas; for a bare name the element is what that name stands for |
| Decoding.Decoder.CloseListType | python/src/arkadia/ai/data/Decoder.py:416-418 | the list takes its element and `]` is expected |
| Decoding.Decoder.PendingList | python/src/arkadia/ai/data/Decoder.py:412-413 | a new list schema with the pending metadata applied |
| Decoding.Decoder.Adopt | python/src/arkadia/ai/data/Decoder.py:416 | the list takes its element and joins the decoder's schemas |
| Decoding.Decoder.NamedType | python/src/arkadia/ai/data/Decoder.py:455-474 | a primitive name gives a new primitive of the mapped type; a registered name gives that schema; no name gives a new `any`; any other name a new record of that type name |
| Decoding.Decoder.SetNodeSchema | python/src/arkadia/ai/data/Decoder.py:557 | the node's schema is replaced |
| Decoding.Decoder.PutField | python/src/arkadia/ai/data/Decoder.py:809 | `node.fields[key] = value` as `OrderedMap.Put` |
| Decoding.Decoder.AddElement | python/src/arkadia/ai/data/Decoder.py:636-639 | the child is appended; while the list's element is `any` the child's schema replaces it, otherwise the element is kept |
| Decoding.Decoder.ForceList | python/src/arkadia/ai/data/Decoder.py:597-609 | a non-list schema becomes a `list` of a new `any` element; a list keeps its type name and element; the children's context is the element |
| Decoding.Decoder.ForceRecord | python/src/arkadia/ai/data/Decoder.py:666-668 | a non-record schema becomes a record of type `any`; a record keeps its type name |
| Decoding.Decoder.Separate | python/src/arkadia/ai/data/Decoder.py:624-631 | the pending metadata goes onto the last value and the separator is skipped |
| Decoding.Decoder.CloseChild | python/src/arkadia/ai/data/Decoder.py:642-644 | the pending metadata goes onto the child, then the node and schema stacks are popped |
| Decoding.Decoder.ParseNode | python/src/arkadia/ai/data/Decoder.py:480-531 | exactly one new node is pushed, with one of the decoder's schemas, and the cursor moves unless the text has ended |
| Decoding.Decoder.ReadNode | python/src/arkadia/ai/data/Decoder.py:480-531 | as `ParseNode`, and a string, number or bare word after the metadata is the node's value, read as `PrimitiveAt` |
| Decoding.Decoder.NodeWithMeta | python/src/arkadia/ai/data/Decoder.py:491-531 | the node at the cursor takes the pending metadata |
| Decoding.Decoder.MissingNode | python/src/arkadia/ai/data/Decoder.py:487-489 | at the end of the text: "Unexpected EOF while expecting a node" and a null node |
| Decoding.Decoder.NodeAt | python/src/arkadia/ai/data/Decoder.py:491-528 | the dispatch pushes one new node, and a scalar's value is `PrimitiveAt` |
| Decoding.Decoder.ScalarNode | python/src/arkadia/ai/data/Decoder.py:513-528 | a scalar is read as `PrimitiveAt`; any other character logs "Unexpected character" and is skipped, giving a null node |
| Decoding.Decoder.WithSchemaRef | python/src/arkadia/ai/data/Decoder.py:533-558 | a node after a registered `@Name` reference ends bound to that registered schema |
| Decoding.Decoder.WithInlineSchema | python/src/arkadia/ai/data/Decoder.py:561-580 | the node read after `<...>` is pushed and the cursor moves on |
| Decoding.Decoder.UnderSchema | python/src/arkadia/ai/data/Decoder.py:546-557 | the node read with the schema as context ends bound to that schema |
| Decoding.Decoder.ParseList | python/src/arkadia/ai/data/Decoder.py:586-650 | a new null node is pushed and the cursor moves past `[`; the list's elements are exactly the new nodes read, in reading order (at the end of the text, those read so far) |
| Decoding.Decoder.ListBody | python/src/arkadia/ai/data/Decoder.py:597-647 | the elements read are appended after the node's earlier elements, in reading order, each a new node; the node stack is as before |
| Decoding.Decoder.ListItems | python/src/arkadia/ai/data/Decoder.py:614-644 | the loop appends exactly the children it reads (`children`), in order, each a new node, after the elements already there; the node stack is as before |
| Decoding.Decoder.ListItem | python/src/arkadia/ai/data/Decoder.py:615-644 | an added element is appended last, and the element schema becomes the child's exactly when it was `any` |
| Decoding.Decoder.ListEntry | python/src/arkadia/ai/data/Decoder.py:620-644 | the end of the text logs "Unexpected EOF: List not closed, expected ']'" and keeps the elements read; `]` stops and `,` continues, each skipped; anything else appends one new element |
| Decoding.Decoder.ListElement | python/src/arkadia/ai/data/Decoder.py:635-644 | the child is appended, and the element schema becomes the child's exactly when it was `any` once the child was read |
| Decoding.Decoder.AppendElement | python/src/arkadia/ai/data/Decoder.py:636-644 | the child is appended, the element rule applied, and the child popped |
| Decoding.Decoder.ParsePositionalRecord | python/src/arkadia/ai/data/Decoder.py:653-725 | a new null node is pushed and the cursor moves past `(`; `predefined` is the context record's or list's fields when `NodeSchemaChoice` keeps the context, and empty when the node gets a new schema; the record's fields are the values read, put in reading order under their names (`Update([], stored)`), the k-th value past `predefined` under `_k`; with no predefined fields they are exactly `stored`, `_0`, `_1`, … |
| Decoding.Decoder.OpenRecord | python/src/arkadia/ai/data/Decoder.py:660-662 | past the opening character, a new null node without fields is pushed; its schema's fields are the kept context's, or none for a new schema |
| Decoding.Decoder.PositionalBody | python/src/arkadia/ai/data/Decoder.py:666-722 | the values are matched against the schema's fields as they were before the loop (`predefined`); the node's fields are the values read, put under their names in reading order, with `_k` past the predefined fields; the node stack is as before |
| Decoding.Decoder.PositionalItems | python/src/arkadia/ai/data/Decoder.py:678-722 | the node's fields are the fields it had, updated with each value read under its name in reading order; the k-th value past the predefined fields goes under `_k`; the node stack is as before |
| Decoding.Decoder.PositionalItem | python/src/arkadia/ai/data/Decoder.py:679-722 | one pass either leaves the fields and the index alone (`)` or `,`), or puts a new value under `PositionalName(predefined, index)` and steps the index; the values stored so far gain exactly that value and name |
| Decoding.Decoder.PositionalEntry | python/src/arkadia/ai/data/Decoder.py:681-722 | `)` stops and `,` continues, each skipped with the fields unchanged; otherwise the next value is stored under `PositionalName` and the index moves on |
| Decoding.Decoder.PositionalValue | python/src/arkadia/ai/data/Decoder.py:692-721 | the `index`-th value is stored under its predefined field's name, or `_index` |
| Decoding.Decoder.PositionalChild | python/src/arkadia/ai/data/Decoder.py:692-699 | the value is read and left on the node stack |
| Decoding.Decoder.FinishPositional | python/src/arkadia/ai/data/Decoder.py:702-721 | the value is stored under its positional name and the node stack popped |
| Decoding.Decoder.PositionalContext | python/src/arkadia/ai/data/Decoder.py:692-698 | the context is the `index`-th predefined field, or a new `any` schema past them |
| Decoding.Decoder.StorePositional | python/src/arkadia/ai/data/Decoder.py:702-716 | the value goes under the predefined field's name, leaving the schema alone; past them it goes under `_index` and a field of the value's kind and type name is appended |
| Decoding.Decoder.InferField | python/src/arkadia/ai/data/Decoder.py:711-713 | a new field of the value's kind and type name is appended under the name (see Left out for a list value) |
| Decoding.RecordKeyAt | python/src/arkadia/ai/data/Decoder.py:761-768 | the key is the identifier when there is one; there is no key exactly when there is neither an identifier nor a `"` after the whitespace |
| Decoding.PositionalWithoutFields | python/src/arkadia/ai/data/Decoder.py:706-716 | with no predefined fields, the values go under `_0`, `_1`, ... and the record's fields are exactly those entries, in reading order |
| Decoding.Decoder.ParseNamedRecord | python/src/arkadia/ai/data/Decoder.py:728-816 | a new null node is pushed and the cursor moves past `{`; the record's fields are the entries read, each value put under its key in reading order (`Update([], stored)`) |
| Decoding.Decoder.NamedBody | python/src/arkadia/ai/data/Decoder.py:740-813 | the node's fields are the entries read, each put under its key in reading order; the node stack is as before |
| Decoding.Decoder.NamedItems | python/src/arkadia/ai/data/Decoder.py:747-813 | the node's fields are the fields it had, updated with each entry read, in reading order; the node stack is as before |
| Decoding.Decoder.NamedItem | python/src/arkadia/ai/data/Decoder.py:748-813 | one pass either leaves the fields alone, or puts a new value under the key it read (`put`); the entries stored so far gain exactly that key and value |
| Decoding.Decoder.NamedEntry | python/src/arkadia/ai/data/Decoder.py:750-813 | `}` stops and `,` continues, each skipped with the fields unchanged; anything else is an entry that does not stop: with a key (`RecordKeyAt`) a new value is put under that key; without one the fields are unchanged |
| Decoding.Decoder.RecordKey | python/src/arkadia/ai/data/Decoder.py:761-771 | the key is an identifier, else a quoted string; with neither, "Expected key in record" is logged and one character skipped |
| Decoding.Decoder.NamedValue | python/src/arkadia/ai/data/Decoder.py:774-813 | the value is stored under the key |
| Decoding.Decoder.NamedChild | python/src/arkadia/ai/data/Decoder.py:774-782 | the value is read and left on the node stack |
| Decoding.Decoder.FinishNamed | python/src/arkadia/ai/data/Decoder.py:784-813 | the value is stored under the key and the node stack popped |
| Decoding.Decoder.KeyContext | python/src/arkadia/ai/data/Decoder.py:774-781 | the context is the record's field of that key, or a new `any` schema |
| Decoding.Decoder.StoreNamed | python/src/arkadia/ai/data/Decoder.py:784-809 | the value is stored under the key, a non-empty key is always a field afterwards, and a key the schema lacked gets a field of the value's kind and type name |
| Decoding.Decoder.SpecialiseField | python/src/arkadia/ai/data/Decoder.py:784-795 | when the key's field is `any` and the value's schema is not, that schema takes the key as name and replaces the field in place (same list position, same map key) |
| Decoding.Decoder.Decode | python/src/arkadia/ai/data/Decoder.py:163-241 | a scalar text is decoded to that value with its own schema; a registered `@Name` header gives the registered schema; after a header run `@Name<fs> @Name` and the data, the result's schema is the new record the run registered under `Name`; at most fifty errors; the stacks end empty; a root left `any` is bound to the header schema |
| Decoding.Decoder.Document | python/src/arkadia/ai/data/Decoder.py:170-241 | the same, from the headers on: a scalar is its value, a registered `@Name` gives that schema, and after a header run `@Name<fs> @Name` and the data, the result's schema is the new record the run registered under `Name` |
| Decoding.Decoder.Root | python/src/arkadia/ai/data/Decoder.py:204-241 | with a header the result's schema is the header; without one a scalar root is the value read and the result's schema is the node's own |
| Decoding.Decoder.Headers | python/src/arkadia/ai/data/Decoder.py:170-202 | data at the cursor means no header; a registered `@Name` alone gives the registered schema as the root's context; a flat definition `@Name<fs>`, then `@Name` and the data, gives the new record registered under `Name` as the root's context |
| Decoding.Decoder.Header | python/src/arkadia/ai/data/Decoder.py:172-200 | `<...>` ends the headers exactly when `(`, `{` or `[` follows; `@Name` ends them unless another `@` or `<` follows; a definition `@Name<fs>` before another `@` registers a new schema under `Name`, keeps the root and stops at that `@`; `@Name` naming a registered schema before the data ends the headers with that schema, the registry unchanged |
| Decoding.Decoder.BodyHeader | python/src/arkadia/ai/data/Decoder.py:175-184 | `<...>` gives one of the decoder's schemas as the root's context and ends the headers exactly when `(`, `{` or `[` follows |
| Decoding.Decoder.AtHeader | python/src/arkadia/ai/data/Decoder.py:187-202 | `@Name` ends the headers (with its schema) unless `@` or `<` follows, and otherwise keeps the earlier root; a registered reference gives the registered schema; a flat definition before another `@` registers a new schema under the name and stops at that `@` |
| Decoding.Decoder.HeaderSchema | python/src/arkadia/ai/data/Decoder.py:189-190 | a registered `@Name` gives that schema, the registry unchanged; `@Name<...>` gives the new schema registered under the name; after a flat definition and the metadata the cursor is at the next `@` |
| Decoding.Decoder.HeaderRef | python/src/arkadia/ai/data/Decoder.py:248-284 | `_parse_schema_at_ref` on a header: a registered reference gives the registered schema with the cursor after the name; with `<` a new schema registered under the name, and after a flat body the cursor just past `>` |
| Decoding.Decoder.SkipMeta | python/src/arkadia/ai/data/Decoder.py:823-848 | `_parse_meta` with no target: when no metadata starts at the first non-space character, the cursor stops there |
| Decoding.UsedAgainRefersTo | python/src/arkadia/ai/data/Decoder.py:252-253 | in a run `@Name<fs> @Name`, the second `@` reads the same identifier the first one defined |
| Decoding.Decoder.RootNode | python/src/arkadia/ai/data/Decoder.py:205-213 | the root node is the only node on the stack, and a scalar root holds the value read |
| Decoding.Decoder.RootSchema | python/src/arkadia/ai/data/Decoder.py:216-224 | with a header a root left `any` is bound to it and the header is the result's schema; without one the node's schema is |
| Decoding.Decoder.Trailer | python/src/arkadia/ai/data/Decoder.py:229-233 | trailing metadata goes onto the root, which is popped, leaving the node stack empty |
| Decoding.DecodeText | python/src/arkadia/ai/data/Decoder.py:130-241 | decoding `schema + text` with a fresh decoder: at most fifty errors, a scalar text is its value, a root is either bound to the result's schema or concrete, and after a header run `@Name<fs> @Name` and the data, the result's schema is the new record the run registered under `Name` |
| Encoding.Compatible | python/src/arkadia/ai/data/Encoder.py:219-239 | compatible when nothing or `any` is expected or the value has no schema; incompatible when the kinds differ; two primitives only with equal type names; same non-primitive kinds otherwise |
| Encoding.CompatibleWithItself | python/src/arkadia/ai/data/Encoder.py:219-239 | a value never needs a tag against its own schema |
| Encoding.TypeLabel | python/src/arkadia/ai/data/Encoder.py:241-251 | a primitive's type name; `[label]` for a list (an error when it has no element); a record's type name unless empty or `any`; `any` otherwise |
| Encoding.TypeLabelFuel | python/src/arkadia/ai/data/Encoder.py:241-251 | more recursion depth never changes a label that was found |
| Encoding.QuotesEscaped | python/src/arkadia/ai/data/Encoder.py:359 | replacing `"` by `\"` is `EscapedChars` without newline escaping: backslashes pass through |
| Encoding.NewlinesEscaped | python/src/arkadia/ai/data/Encoder.py:335-359 | with `escape_new_lines`, a text without carriage returns gets each newline as `\n` and each `"` as `\"` |
| Encoding.Encoder.constructor | python/src/arkadia/ai/data/Encoder.py:37-52 | each setting is read from the configuration with its default |
| Encoding.Encoder.StringTextEscapes | python/src/arkadia/ai/data/Encoder.py:355-360 | `_string` is the text between quotes with `"` escaped, backslashes untouched, and newlines escaped only with `escape_new_lines` |
| Encoding.Encoder.ValueText | python/src/arkadia/ai/data/Encoder.py:344-353 | strings are quoted, integers are `str()`, and only primitives render |
| Encoding.Encoder.CommentItems | python/src/arkadia/ai/data/Encoder.py:281-283 | one `/* comment */` item per comment, stripped and padded |
| Encoding.Encoder.AttrItems | python/src/arkadia/ai/data/Encoder.py:292-294 | one `$key=value` item per attribute, in order, failing exactly when a value is not a primitive |
| Encoding.Encoder.TagItems | python/src/arkadia/ai/data/Encoder.py:297-298 | one `#tag` item per tag, in order |
| Encoding.Encoder.ShownComments | python/src/arkadia/ai/data/Encoder.py:280-283 | no comment items exactly when comments are off or there are none |
| Encoding.Encoder.ShownRequired | python/src/arkadia/ai/data/Encoder.py:286-287 | a `!required` item exactly when `required` is set, whatever `include_meta` says |
| Encoding.Encoder.ShownAttrs | python/src/arkadia/ai/data/Encoder.py:290-294 | no attribute items exactly when `include_meta` is off or there are none |
| Encoding.Encoder.ShownTags | python/src/arkadia/ai/data/Encoder.py:290-298 | no tag items exactly when `include_meta` is off or there are none |
| Encoding.Encoder.MetaItems | python/src/arkadia/ai/data/Encoder.py:271-306 | the items are comments, then `!required`, then attributes, then tags |
| Encoding.Encoder.MetaString | python/src/arkadia/ai/data/Encoder.py:300-310 | the items joined by single spaces |
| Encoding.Encoder.MetaStringEmpty | python/src/arkadia/ai/data/Encoder.py:300-301 | the metadata string is empty exactly when there is nothing to show |
| Encoding.Encoder.WrapMeta | python/src/arkadia/ai/data/Encoder.py:317-325 | empty exactly for empty content, else `/content/ ` compact or ` / content / ` pretty |
| Encoding.Encoder.MetaWrapped | python/src/arkadia/ai/data/Encoder.py:312-315 | the metadata string, wrapped |
| Encoding.Encoder.TypeTag | python/src/arkadia/ai/data/Encoder.py:253-264 | a compatible value is unchanged; otherwise `<label> ` is put in front |
| Encoding.Encoder.TaggedEndsWithValue | python/src/arkadia/ai/data/Encoder.py:262-264 | a tagged value still ends with the value's text, after `> ` |
| Encoding.Encoder.PrimitiveNodeText | python/src/arkadia/ai/data/Encoder.py:338-341 | a primitive node renders exactly when its metadata and value do; without metadata it is the value's text |
| Encoding.Encoder.ListLinesShape | python/src/arkadia/ai/data/Encoder.py:429-454 | a pretty list has a header line, a metadata line when there is metadata, one line per item one level deeper, and `]` |
| Encoding.Encoder.ListLayoutDelimited | python/src/arkadia/ai/data/Encoder.py:409-454 | a list is bracketed after its indentation, in both modes |
| Encoding.Encoder.DataTextCases | python/src/arkadia/ai/data/Encoder.py:86-97 | `encode` without a header dispatches lists, primitives and records, and renders any other node as `null` |
| Encoding.Encoder.ChildTextTagged | python/src/arkadia/ai/data/Encoder.py:413-424 | an element is its stripped data text, with a `<label> ` tag exactly when its schema is incompatible with the element schema |
| Encoding.Encoder.ListItemsOk | python/src/arkadia/ai/data/Encoder.py:413-424 | the items succeed exactly when every element does |
| Encoding.Encoder.ListItemsLength | python/src/arkadia/ai/data/Encoder.py:413-424 | one item per element |
| Encoding.Encoder.ListItemsAt | python/src/arkadia/ai/data/Encoder.py:413-424 | the item for each element is that element's text |
| Encoding.Encoder.RecordPartsOk | python/src/arkadia/ai/data/Encoder.py:464-476 | the entries succeed exactly when every stored child does |
| Encoding.Encoder.RecordPartsLength | python/src/arkadia/ai/data/Encoder.py:464-476 | one entry per schema field |
| Encoding.Encoder.RecordPartsAt | python/src/arkadia/ai/data/Encoder.py:464-476 | the entry for each field, in field order, is the tagged text of the child stored under its name, or `null` when there is none |
| Encoding.Encoder.EntryTexts | python/src/arkadia/ai/data/Encoder.py:468-470 | each entry is the stripped text of its value |
| Encoding.Encoder.FlatEntry | python/src/arkadia/ai/data/Encoder.py:466-472 | a primitive child whose schema is its field renders untagged as its value |
| Encoding.Encoder.FlatParts | python/src/arkadia/ai/data/Encoder.py:464-476 | such fields render as their values, in field order |
| Encoding.Encoder.FlatRecordData | python/src/arkadia/ai/data/Encoder.py:460-479 | a flat record renders as its values, untagged, between parentheses, joined by `,` (compact) or `, ` |
| Encoding.Encoder.RecordDelimited | python/src/arkadia/ai/data/Encoder.py:479 | a record's data text is parenthesised |
| Encoding.Encoder.ListTextDelimited | python/src/arkadia/ai/data/Encoder.py:392-454 | a list's text is bracketed after its indentation |
| Encoding.Encoder.ListDelimited | python/src/arkadia/ai/data/Encoder.py:87-88 | a list node's data text is bracketed after the indentation `encode` gives it |
| Encoding.Encoder.SchemaPrefix | python/src/arkadia/ai/data/Encoder.py:119-124 | an `@TypeName` prefix exactly for a non-`any` record with a type name |
| Encoding.Encoder.FieldPart | python/src/arkadia/ai/data/Encoder.py:184-209 | metadata and a space, the name, and `:type` exactly when the type text is non-empty and the field is a structure or a non-`any` primitive with types included |
| Encoding.Encoder.MetaStringOfEmpty | python/src/arkadia/ai/data/Encoder.py:300-301 | without metadata both metadata strings are empty |
| Encoding.Encoder.FieldTypes | python/src/arkadia/ai/data/Encoder.py:194 | each primitive field's type text is its stripped type name |
| Encoding.Encoder.FieldParts | python/src/arkadia/ai/data/Encoder.py:183-209 | one part per field, in order, built by `FieldPart` |
| Encoding.Encoder.HeaderText | python/src/arkadia/ai/data/Encoder.py:74-84 | the header opens with `<` or `@`: stripped text already opening so is kept, anything else (the empty text too) is wrapped in `<...>`; pretty mode adds a newline and the indentation |
| Encoding.Encoder.Assemble | python/src/arkadia/ai/data/Encoder.py:99-100 | the header, when there is one, goes before the data; the first failure wins |
| Encoding.Encoder.AbsorbElementMeta | python/src/arkadia/ai/data/Encoder.py:136-137 | the list takes its element's metadata (`required` carries over) and the element's is cleared |
| Encoding.Encoder.EncodeSchema | python/src/arkadia/ai/data/Encoder.py:104-172 | nothing for no schema; metadata that cannot render fails first and changes nothing; a primitive is its metadata and type name (`PrimitiveHeader`), `any`/`dict` is `<meta any>` (`AnyHeader`) and a record without fields is `FieldlessHeader`, all three changing nothing; a list absorbs its element's metadata and renders `<[...]>` for records, `[type]` otherwise |
| Encoding.Encoder.ListSchema | python/src/arkadia/ai/data/Encoder.py:134-150 | a list without element fails; otherwise its wrapped metadata is the absorbed one, and records give `<[meta fields]>` |
| Encoding.Encoder.ElementSchema | python/src/arkadia/ai/data/Encoder.py:141-150 | a record element gives `<[meta fields]>`, any other `[meta type]`, a primitive's inner text being its type name |
| Encoding.Encoder.RecordSchema | python/src/arkadia/ai/data/Encoder.py:153-170 | no fields always succeed, change nothing, and give nothing for a generic bare record and `prefix<meta any>` otherwise; fields give `prefix<meta fields>`; bare primitive fields render as `BareFieldsText` and change nothing |
| Encoding.Encoder.GenericRecordHeader | python/src/arkadia/ai/data/Encoder.py:74-81 | a generic record without fields, type name or metadata has an empty schema text, written `<>` in compact mode |
| Encoding.Encoder.EncodeSchemaFields | python/src/arkadia/ai/data/Encoder.py:175-212 | the parts are joined by `,` and the padding, one `FieldPart` per field; for primitive fields the types are their stripped type names and bare fields have no metadata |
| Encoding.Encoder.FieldTexts | python/src/arkadia/ai/data/Encoder.py:186-194 | a field's inline metadata string as it is read; a primitive field's type text is its type name and changes nothing |
| Encoding.Encoder.FieldType | python/src/arkadia/ai/data/Encoder.py:194 | a primitive field's schema text without metadata is its type name, and nothing changes |
| Encoding.Encoder.Header | python/src/arkadia/ai/data/Encoder.py:63-84 | a header exactly when both flags ask and the node has a schema; it is `BareRecordHeader` for a bare record of primitives and, together stated as `ShapedHeader`, `PrimitiveHeader` for a primitive (so `number` for 123), `AnyHeader` for `any`/`dict` and `FieldlessHeader` for a record without fields, and in those cases changes nothing |
| Encoding.Encoder.Encode | python/src/arkadia/ai/data/Encoder.py:58-100 | the result is the header assembled with the node's data text; the header is as `Header` states it per kind of schema; for a bare record the data text is the one before encoding |
| Parse.FirstUnsupported | python/src/arkadia/ai/data/parse.py:128-138 | no refusal exactly when every value in the tree is supported |
| Parse.FirstUnsupportedItems | python/src/arkadia/ai/data/parse.py:66 | no refusal exactly when every item is supported |
| Parse.FirstUnsupportedEntries | python/src/arkadia/ai/data/parse.py:111-112 | no refusal exactly when every value is supported |
| Parse.FirstUnsupportedItemsAt | python/src/arkadia/ai/data/parse.py:66 | when the earlier items are supported, the first refusal is inside item `k` |
| Parse.FirstUnsupportedEntriesAt | python/src/arkadia/ai/data/parse.py:111-112 | when the earlier values are supported, the first refusal is inside entry `k` |
| Parse.ExpectedShape | python/src/arkadia/ai/data/parse.py:128-138 | lists get list schemas, dicts record schemas and scalars primitive schemas, exactly |
| Parse.WithNames | python/src/arkadia/ai/data/parse.py:83 | each field paired with its name, in order |
| Parse.FirstNamed | python/src/arkadia/ai/data/parse.py:84 | the first position holding the name |
| Parse.FirstByNameNames | python/src/arkadia/ai/data/parse.py:78-86 | the union keeps every field name that occurs |
| Parse.FirstByNameDistinct | python/src/arkadia/ai/data/parse.py:78-86 | the union holds each name once |
| Parse.FirstByNameFirst | python/src/arkadia/ai/data/parse.py:78-86 | the field kept for a name is its first occurrence |
| Parse.FirstByNamePrefix | python/src/arkadia/ai/data/parse.py:78-86 | fields are only appended, so the union lists names in order of first appearance |
| Parse.FirstByNameSnoc | python/src/arkadia/ai/data/parse.py:84-86 | one more field is appended exactly when its name is unseen |
| Parse.ParsePrimitive | python/src/arkadia/ai/data/parse.py:37-49 | str, bool, int/float and None get a new primitive schema named `string`, `bool`, `number` or `null` and keep their value; anything else fails, with a message that starts `Unsupported primitive: ` |
| Parse.Parse | python/src/arkadia/ai/data/parse.py:128-138 | success exactly when the value is supported, else the first refusal's message; the new tree has the value's shape and no metadata, and a dict with distinct keys has its children under its keys |
| Parse.ParseList | python/src/arkadia/ai/data/parse.py:57-95 | an empty list gets an `any` element; otherwise one node per item in order, under a list schema with an element; refusals as in `Parse` |
| Parse.ListOfItems | python/src/arkadia/ai/data/parse.py:69-95 | the element is the first item's schema, or for a dict first item a new `record` holding the first-name-wins union of the dict items' fields |
| Parse.ListElement | python/src/arkadia/ai/data/parse.py:74-90 | the element schema chosen, as in `ListOfItems` |
| Parse.ParseItems | python/src/arkadia/ai/data/parse.py:66 | the items in order, each parsed, or the first refusal |
| Parse.UnionOfRecords | python/src/arkadia/ai/data/parse.py:75-86 | a new `record` schema whose fields are the first-name-wins union of the record items' fields |
| Parse.AddItemFields | python/src/arkadia/ai/data/parse.py:80-86 | a record item's unseen fields are added and `seen_fields` tracks the union's names |
| Parse.AddUnseen | python/src/arkadia/ai/data/parse.py:83-86 | each unseen field of one item is added, in order |
| Parse.AddIfUnseen | python/src/arkadia/ai/data/parse.py:84-86 | the field is added exactly when its name is unseen |
| Parse.ParseDict | python/src/arkadia/ai/data/parse.py:103-120 | a record whose `k`-th field has the shape `parse` gives the `k`-th value; refusals as in `Parse` |
| Parse.RecordOfChildren | python/src/arkadia/ai/data/parse.py:107-120 | the fields are the children's schemas, in key order, and with distinct keys each child is stored under its key |
| Parse.RecordNode | python/src/arkadia/ai/data/parse.py:116-120 | `fields_data` is the keys and children stored in order, each child under its own key when keys are distinct |
| Parse.DictNode | python/src/arkadia/ai/data/parse.py:116-120 | a record node built from the keys and children is the parse of the dict |
| Parse.NamedRecord | python/src/arkadia/ai/data/parse.py:109-118 | a new record whose fields are the children's schemas, each named by its key |
| Parse.ParseEntryValues | python/src/arkadia/ai/data/parse.py:111-112 | the values parsed in order, or the first refusal |
| Parse.NameFields | python/src/arkadia/ai/data/parse.py:114-118 | each child's schema takes its key as name and is added as a field, in order |
| Parse.StoreChildren | python/src/arkadia/ai/data/parse.py:116 | `fields_data[key] = child` for each entry in order |
| Parse.AddNamedField | python/src/arkadia/ai/data/parse.py:114-118 | one step: the field takes the key as name and is appended |
| Parse.PutAllDistinct | python/src/arkadia/ai/data/parse.py:116 | with distinct keys every child is stored under its own key |
| EncodeEntry.DefaultKeys | python/src/arkadia/ai/data/encode.py:11-22 | `DEFAULT_CONFIG` holds exactly its ten keys, in order, once each |
| EncodeEntry.DefaultAbsent | python/src/arkadia/ai/data/encode.py:11-22 | `escape_new_lines` and `include_meta` are not among the defaults |
| EncodeEntry.DefaultSettings | python/src/arkadia/ai/data/encode.py:11-22 | the value of each default setting |
| EncodeEntry.MergedKeys | python/src/arkadia/ai/data/encode.py:82-84 | the merge keeps the default keys in order and appends the caller's new keys, never twice |
| EncodeEntry.MergedGet | python/src/arkadia/ai/data/encode.py:82-84 | a caller's key reads the caller's value and any other key its default |
| EncodeEntry.MergedFlag | python/src/arkadia/ai/data/encode.py:82-86 | a flag reads the same after merging as the encoder would read it from the caller's config |
| EncodeEntry.MergedNumber | python/src/arkadia/ai/data/encode.py:82-86 | the same for a number setting |
| EncodeEntry.MergedConfigured | python/src/arkadia/ai/data/encode.py:82-86 | an encoder built from the merged config is set up exactly as one built from the caller's config |
| EncodeEntry.FlatDictParsed | python/src/arkadia/ai/data/encode.py:75-87 | the tree `parse` builds for a dict of scalars is a bare record whose header and data read as `FlatHeader` and `FlatData` |
| EncodeEntry.NodeOf | python/src/arkadia/ai/data/encode.py:75-79 | a node is taken as it is; other data is parsed, and a refused value gives its message |
| EncodeEntry.NewEncoder | python/src/arkadia/ai/data/encode.py:86 | the encoder is configured from the config given |
| EncodeEntry.Encode | python/src/arkadia/ai/data/encode.py:25-87 | refused data raises `EncodingError` with its message; otherwise the result is the header and data of the node (taken or parsed) under the merged config, with the header per kind of schema as `Encoder.Header` states it; a scalar gives `ScalarText` (its type name, then its text) and a dict of scalars `FlatText` |
| EncodeEntry.EncodeNode | python/src/arkadia/ai/data/encode.py:87 | the encoder's `encode` at indentation 0 with the header per kind of schema, `ScalarText` for a parsed scalar and `FlatText` for a parsed dict of scalars |
| EncodeEntry.ScalarEncoded | python/src/arkadia/ai/data/Encoder.py:63-100 | the node `parse` makes of a scalar is encoded as its type name header followed by its value's text |
| EncodeEntry.CompactExample | python/src/arkadia/ai/data/encode.py:25-87 | `encode({"x": 10, "y": 20}, {"compact": True})` is `<x:number,y:number>(10,20)` |
| EncodeEntry.PrimitiveExample | python/tests/test_00_primitive.py:18 | `encode(123, {"compact": True})` is `<number>123` |
| RoundTrip.QuotedScanStep | python/src/arkadia/ai/data/Decoder.py:1127-1146 | one escaped character scans back to itself |
| RoundTrip.QuotedScanEscaped | python/src/arkadia/ai/data/Decoder.py:1119-1151 | the escaped body of a string, then its closing quote, scans back to the string |
| RoundTrip.IntRoundTrip | python/src/arkadia/ai/data/Decoder.py:1087-1113 | `str(n)`, delimited, is read back as the integer `n` |
| RoundTrip.WordRoundTrip | python/src/arkadia/ai/data/Decoder.py:1027-1048 | a bare word, delimited, is read back as itself |
| RoundTrip.QuotedRoundTrip | python/src/arkadia/ai/data/Decoder.py:1119-1151 | the encoder's quoted string scans back to the string, ending past its closing quote |
| RoundTrip.StrRoundTrip | python/src/arkadia/ai/data/Encoder.py:355-360 | the encoder's text for a string is read back as that string |
| RoundTrip.KeywordRoundTrip | python/src/arkadia/ai/data/Encoder.py:347-352 | `true`, `false` and `null` are read back as themselves |
| RoundTrip.PrimitiveRoundTrip | python/src/arkadia/ai/data/Encoder.py:344-353 | every readable scalar's text is read back by `_parse_primitive_value` as that scalar, ending right after it |
| RoundTrip.DecodeEncodedScalar | python/src/arkadia/ai/data/Decoder.py:163-241 | decoding the encoder's text for a scalar gives a root node holding the scalar |
| RoundTrip.ReadableStripped | python/src/arkadia/ai/data/Encoder.py:470 | stripping a scalar's text keeps it |
| RoundTrip.ItemRoundTrip | python/src/arkadia/ai/data/Decoder.py:1087-1113 | a readable scalar's text at its position is read there as the scalar |
| RoundTrip.BodyRoundTrip | python/src/arkadia/ai/data/Encoder.py:478-479 | the compact entries of readable scalars, joined by commas, read back as those scalars, each followed by a comma but the last |
| RoundTrip.FlatDataReadsBack | python/src/arkadia/ai/data/Encoder.py:460-479 | the compact data `encode` writes for a dict of readable scalars is parenthesised, and each value reads back at its place |

## Left out

- Text.IsSpace: the character classes (`isalpha`, `isdigit`, `isalnum`, `isspace`) are the ASCII subset; Python's are Unicode-aware.
- Values.Value: a float keeps its literal text (`Float(text)`); `float()` conversion and `str()` of a float are not modelled.
- Encoding.Encoder.ValueText: a non-primitive value gives `ReprNotModelled` where the source prints Python's `str()` of it.
- Parse.ParsePrimitive: the message for a non-primitive is stated up to its prefix `Unsupported primitive: `; the `{v}` text after it is Python's `str()` of a list, dict or foreign object, which is not modelled, so the model leaves it empty.
- Encoding.Encoder.constructor: `colorize` is read but `_c` is the identity (no ANSI colouring); `Node.json` and the colour tables are not modelled.
- Decoding.Decoder.constructor: ANSI escapes are not stripped from the input, because the source uses a regular expression for that.
- Nodes.Node.Dict: a `fuel` bound stands for Python's recursion limit; running out is `None`, and running out in the encoder is `RecursionError`.
- Decoding.Diagnostic: a diagnostic keeps only its message and position; the node, the schema and the line/column copies are not kept (the line and column are `LineAt`/`ColAt` of the position).
- Decoding.Decoder.MetaOntoTarget: the warning without a target is "There is no parent to add the meta block", without the `'{meta}'` text the source appends.
- Decoding.MetaBlockFrom: the block loop uses the corrected `Classify` rather than the decision as written (see Findings).
- Parse.ParseDict: every value is parsed before any field is named. No parse reads a schema that an earlier entry renamed, so the order makes no difference.
- Decoding.Decoder.InferField: a list value's inferred field keeps the value's element, where the source leaves the new field's element as None. Encoding such a field later raises `AttributeError` in the source (`encode_schema` reads the element's metadata); the model renders it.
- Decoding.Decoder.ParseList: does not promise that the node's schema is still a list, nor the first-concrete settlement of the whole loop. A child's schema may be that same shared schema: in `@L<[number]>` followed by `[1, @L(2)]`, the child forces L into a record. The per-element rule is stated in `ListElement` and `ListItem`, and the settlement of a sequence in `SettlesOnFirstConcrete`.
- Decoding.Decoder.ParseMeta: states where the cursor stops and that plain data is left alone, but not the metadata collected across a whole run; each item is stated in `MetaLexItem` and `ParseMetaBlock`.
- Encoding.Encoder.EncodeSchemaFields: the metadata and type texts are stated for primitive fields only; for a nested list or record field they are what `EncodeSchema` returns.
- RoundTrip.PrimitiveRoundTrip: only readable scalars are covered: integers, booleans, None, and strings with no backslash (and no carriage return when `escape_new_lines` is set, because it is written as `\n`); floats and strings with a backslash are not.
- EncodeEntry.DefaultKeys: `remove_new_lines` and `prompt_output` are held but never read by the encoder, so nothing depends on them.
- Decoding.Decoder.ParseSchemaBodyContent: the fields built are stated for bodies of `name: primitive` fields (`FlatRest`); for a field with a nested type (`[...]`, `@Name`, `<...>`) or metadata inside the body, each entry is stated on its own (`BodyEntry`, `FieldEntry`, `ParseSchemaType`), not the whole schema.
- Decoding.Decoder.ParseSchemaBody: the schema built from `<...>` is stated exactly for a flat body only, as for `ParseSchemaBodyContent`; otherwise it is a new schema that is not generic-kind.
- Decoding.Decoder.BodyItem: over a body that is not flat, states only that the cursor moves on and that fields are appended or the schema becomes a list.
- Decoding.Decoder.FieldDefinition: the metadata merge onto a field with a `:` type is stated in `NameField`, not at this level, because the type parse may collect further metadata first.
- Decoding.Decoder.ListType: the element is stated for a bare type name only; for `[[...]]`, `[@Name]` or `[<...>]` it is one of the decoder's schemas.
- Decoding.Decoder.Headers: the header run is followed for a definition then a reference (`@Name<fs> @Name` and the data, with a flat body); longer runs are stated one header at a time in `Header`.
- Decoding.Decoder.Decode: the header schema bound after a `@Name<fs> @Name` run is promised to be the record registered under `Name`, not that its fields are still `fs` after the data is read, because reading the data may add fields to that shared schema.
- Decoding.Decoder.Decode: the debug output (`_dbg`) and the `__repr__`/`__str__` methods are not modelled.
- Decoding.Decoder.ParsePositionalRecord: for a predefined field, the name a value is stored under is the field's name when the value is stored. Reading a value may rename that field's schema (`val_node.schema.name = key_name` in a nested named record, Decoder.py:794). So the record-level contract pins `predefined` to the context schema's fields and names the `_k` keys past them, and `PositionalItem` gives each predefined key, but nothing ties that key to the field's name before the loop.
- Decoding.Decoder.PositionalBody: as for `ParsePositionalRecord`, a predefined key is the field's name at the moment of storing; the schema's fields after the loop are not stated, because a value's schema may be the record's own field schema.
- Decoding.Decoder.PositionalItems: as for `ParsePositionalRecord`, a predefined key is stated per pass, not against the field's name before the loop.
- Decoding.Decoder.ParseNamedRecord: the keys are stated per entry (`NamedEntry`, via `RecordKeyAt`) and not as one function of the whole text, because the metadata read before each entry moves the cursor.
- Decoding.Decoder.NamedItems: as for `ParseNamedRecord`, each key is stated in `NamedEntry`.
- Decoding.Decoder.ReadNumber: recent CPython refuses `int()` of more than 4300 digits with a `ValueError`, which `_read_number` turns into "Invalid number format" and 0; the model converts any length.
- Encoding.Encoder.ValueText: `str()` of an integer of more than 4300 digits raises `ValueError` in recent CPython; the model writes it out.
- Decoding.Decoder.PopSchema: the stacks are not promised to balance, because `_parse_list` pushes the element schema on every pass and skips the pop on `,`.

## Findings

| source | as written | input that shows it | evidently intended | confidence | as-written member | corrected member |
|---|---|---|---|---|---|---|
| python/src/arkadia/ai/data/Decoder.py:956-967 | inside a meta block, any `isalnum` character starts an implicit attribute, but `_parse_ident` reads nothing at a digit, so the cursor does not move and the loop repeats, adding a warning each time | `/1/` | an implicit attribute starts only where an identifier can; any other character is an unexpected token, logged and skipped | not executed | Decoding.ImplicitAttributeStalls | Decoding.Classify |
| python/src/arkadia/ai/data/Decoder.py:929-971 | the block loop has no end-of-text check after the whitespace, so `_peek()` returns None and `None.isalnum()` raises `AttributeError` | `/ ` at the end of the text | the block ends at the end of the text, as an unterminated block | not executed | Decoding.OpenBlockAtEndCrashes | Decoding.Classify |
