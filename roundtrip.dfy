/**
 * What the encoder writes for a scalar, the decoder's own scanners read
 * back: `str()` of an integer, `true`, `false`, `null`, and a quoted
 * string without backslashes.  A comma-separated run of such texts, as a
 * compact list or record body lays them out, reads back value by value.
 */
module RoundTrip {
  import opened Wrappers
  import opened Text
  import opened Values
  import opened Scan
  import opened Decoding
  import opened Encoding
  import opened OrderedMap
  import opened EncodeEntry

  /** `text` holds `t` from position `i`. */
  predicate HoldsAt(text: string, i: nat, t: string)
  {
    i + |t| <= |text| && text[i..i + |t|] == t
  }

  /** Nothing at `j` continues the token before it: the end, or neither an identifier character nor a point. */
  predicate Delimited(text: string, j: nat)
  {
    j == |text| || (j < |text| && !IsIdentChar(text[j]) && text[j] != '.')
  }

  /**
   * The scalars whose text reads back as themselves.  A backslash in a
   * string is written as it is and read as an escape, and with
   * `escape_new_lines` a carriage return is written as `\n`.
   */
  predicate Readable(v: Value, escapeNewLines: bool)
  {
    IsPrimitive(v) && !v.Float? && (v.Str? ==> '\\' !in v.s && (escapeNewLines ==> '\r' !in v.s))
  }

  lemma {:induction false} HoldsAtSplit(text: string, i: nat, a: string, b: string)
    requires HoldsAt(text, i, a + b)
    ensures HoldsAt(text, i, a) && HoldsAt(text, i + |a|, b)
  {
    assert text[i..i + |a|] == (a + b)[..|a|];
    assert text[i + |a|..i + |a| + |b|] == (a + b)[|a|..];
  }

  lemma {:induction false} CommaSplit(text: string, i: nat, a: string, b: string)
    requires HoldsAt(text, i, a + "," + b)
    ensures HoldsAt(text, i, a) && i + |a| < |text| && text[i + |a|] == ','
    ensures HoldsAt(text, i + |a| + 1, b) && |a + "," + b| == |a| + 1 + |b|
  {
    HoldsAtSplit(text, i, a + ",", b);
    HoldsAtSplit(text, i, a, ",");
    assert text[i + |a|] == text[i + |a|..i + |a| + 1][0];
  }

  /** One escaped character scans back to itself, and the scan goes on right after it. */
  lemma {:induction false} QuotedScanStep(text: string, i: nat, c: char, esc: bool, acc: string)
    requires c != '\\' && (esc ==> c != '\r')
    requires HoldsAt(text, i, EscapedChar(c, esc))
    ensures QuotedScan(text, i, acc) == QuotedScan(text, i + |EscapedChar(c, esc)|, acc + [c])
  {
    var head := EscapedChar(c, esc);
    assert text[i] == head[0];
    if |head| == 2 {
      assert text[i + 1] == head[1];
      assert Unescape(head[1]) == c;
    }
  }

  /** The escaped body of a string, followed by its closing quote, scans back to the string. */
  lemma {:induction false} QuotedScanEscaped(text: string, i: nat, s: string, acc: string, esc: bool)
    requires '\\' !in s && (esc ==> '\r' !in s)
    requires HoldsAt(text, i, EscapedChars(s, esc)) && i + |EscapedChars(s, esc)| < |text|
    requires text[i + |EscapedChars(s, esc)|] == '"'
    ensures QuotedScan(text, i, acc) == (acc + s, i + |EscapedChars(s, esc)|)
    decreases |s|
  {
    if |s| > 0 {
      var c, t := s[0], s[1..];
      var head, rest := EscapedChar(c, esc), EscapedChars(t, esc);
      assert HoldsAt(text, i, head) && HoldsAt(text, i + |head|, rest) && |EscapedChars(s, esc)| == |head| + |rest| by {
        assert EscapedChars(s, esc) == head + rest;
        HoldsAtSplit(text, i, head, rest);
      }
      assert c != '\\' && (esc ==> c != '\r') && '\\' !in t && (esc ==> '\r' !in t) && acc + [c] + t == acc + s by {
        assert s == [c] + t;
      }
      assert text[i + |head| + |rest|] == '"';
      QuotedScanStep(text, i, c, esc, acc);
      QuotedScanEscaped(text, i + |head|, t, acc + [c], esc);
    } else {
      assert acc + s == acc;
    }
  }

  /** `str(n)` at `i`, delimited, is read as the integer `n`. */
  lemma {:induction false} IntRoundTrip(text: string, i: nat, n: int)
    requires HoldsAt(text, i, IntToString(n)) && Delimited(text, i + |IntToString(n)|)
    ensures PrimitiveAt(text, i) == (Int(n), i + |IntToString(n)|)
  {
    var s := IntToString(n);
    assert text[i] == s[0];
    assert s[0] == '-' || IsDigit(s[0]) by {
      if n >= 0 { assert IsDigit(Digits(n)[0]); }
    }
    NumberAtIntToString(text, i, n);
  }

  /** A bare word at `i`, delimited, is read as that word. */
  lemma {:induction false} WordRoundTrip(text: string, i: nat, w: string)
    requires |w| > 0 && IsAlpha(w[0]) && forall k :: 0 <= k < |w| ==> IsIdentChar(w[k])
    requires HoldsAt(text, i, w) && Delimited(text, i + |w|)
    ensures IdentAt(text, i) == w && IdentAtEnd(text, i) == i + |w|
  {
    assert text[i] == w[0];
    assert SkipSpace(text, i) == i;
    forall k | i + 1 <= k < i + |w| ensures IsIdentChar(text[k]) {
      assert text[k] == w[k - i];
    }
    IdentRestAt(text, i + 1, i + |w|);
  }

  /** A quoted string at `i` scans back to the string, and its end is right after the closing quote. */
  lemma {:induction false} QuotedRoundTrip(enc: Encoder, text: string, i: nat, s: string)
    requires '\\' !in s && (enc.escapeNewLines ==> '\r' !in s)
    requires HoldsAt(text, i, enc.StringText(s))
    ensures i < |text| && text[i] == '"'
    ensures QuotedScan(text, i + 1, "").0 == s && QuotedEnd(text, i) == i + |enc.StringText(s)|
  {
    var body := EscapedChars(s, enc.escapeNewLines);
    assert text[i] == '"' && HoldsAt(text, i + 1, body) && i + 1 + |body| < |text| && text[i + 1 + |body|] == '"'
      && |enc.StringText(s)| == |body| + 2 by {
      enc.StringTextEscapes(s);
      HoldsAtSplit(text, i, "\"" + body, "\"");
      HoldsAtSplit(text, i, "\"", body);
      assert text[i + 1 + |body|] == text[i + 1 + |body|..i + 1 + |body| + 1][0];
    }
    QuotedScanEscaped(text, i + 1, s, "", enc.escapeNewLines);
    assert "" + s == s;
  }

  /** A quoted string at `i` is read as the string, and the cursor stops past its closing quote. */
  lemma {:induction false} StrRoundTrip(enc: Encoder, text: string, i: nat, s: string)
    requires '\\' !in s && (enc.escapeNewLines ==> '\r' !in s)
    requires HoldsAt(text, i, enc.StringText(s))
    ensures PrimitiveAt(text, i) == (Str(s), i + |enc.StringText(s)|)
  {
    QuotedRoundTrip(enc, text, i, s);
  }

  /**
   * Every readable scalar the encoder writes at `i`, delimited, is what
   * the decoder's `_parse_primitive_value` reads there, and the cursor
   * stops right after it.
   */
  lemma {:induction false} PrimitiveRoundTrip(enc: Encoder, v: Value, text: string, i: nat)
    requires Readable(v, enc.escapeNewLines)
    requires HoldsAt(text, i, enc.ValueText(v).value) && Delimited(text, i + |enc.ValueText(v).value|)
    ensures PrimitiveAt(text, i) == (v, i + |enc.ValueText(v).value|)
  {
    var t := enc.ValueText(v).value;
    if v.Int? {
      assert t == IntToString(v.i);
      IntRoundTrip(text, i, v.i);
    } else if v.Str? {
      assert t == enc.StringText(v.s);
      StrRoundTrip(enc, text, i, v.s);
    } else {
      KeywordRoundTrip(enc, v, text, i);
    }
  }

  /** `true`, `false` and `null` at `i`, delimited, are read as themselves. */
  lemma {:induction false} KeywordRoundTrip(enc: Encoder, v: Value, text: string, i: nat)
    requires v.Bool? || v.Null?
    requires HoldsAt(text, i, enc.ValueText(v).value) && Delimited(text, i + |enc.ValueText(v).value|)
    ensures PrimitiveAt(text, i) == (v, i + |enc.ValueText(v).value|)
  {
    var w := if v.Null? then "null" else if v.b then "true" else "false";
    assert enc.ValueText(v) == Ok(w);
    WordRoundTrip(text, i, w);
    assert text[i] == w[0];
    assert Keyword(w) == v;
  }

  /**
   * `decode(encode(v))` for a scalar on its own: the text the encoder
   * writes for `v`, decoded without a schema, gives a root node holding `v`
   * whose schema is the result's.
   */
  method DecodeEncodedScalar(enc: Encoder, v: Value) returns (result: DecodeResult)
    requires Readable(v, enc.escapeNewLines)
    ensures result.node.value == v && result.schema == result.node.schema
  {
    var t := enc.ValueText(v).value;
    assert |t| > 0 && ScalarStart(t[0]) by {
      if v.Int? {
        if v.i >= 0 { assert IsDigit(Digits(v.i)[0]); }
      } else if v.Str? {
        enc.StringTextEscapes(v.s);
      }
    }
    assert SkipSpace(t, 0) == 0;
    assert t[0..|t|] == t;
    PrimitiveRoundTrip(enc, v, t, 0);
    assert "" + t == t;
    ghost var bound;
    result, bound := DecodeText(t, "", [], 0);
  }

  /** A scalar's text has no white space at either end, so `entry.strip()` keeps it. */
  lemma {:induction false} ReadableStripped(enc: Encoder, v: Value)
    requires Readable(v, enc.escapeNewLines)
    ensures Strip(enc.ValueText(v).value) == enc.ValueText(v).value
  {
    var t := enc.ValueText(v).value;
    match v
    case Int(n) =>
      if n >= 0 {
        assert IsDigit(Digits(n)[0]);
      }
      assert IsDigit(Digits(if n < 0 then -n else n)[|Digits(if n < 0 then -n else n)| - 1]);
      assert t[|t| - 1] == Digits(if n < 0 then -n else n)[|Digits(if n < 0 then -n else n)| - 1];
      StripWord(t);
    case Str(s) => StripWord(t);
    case Bool(b) => StripWord(t);
    case Null => StripWord(t);
  }

  /** The texts from the `j`-th on, joined by commas. */
  function JoinFrom(texts: seq<string>, j: nat): (r: string)
    ensures j < |texts| ==> |r| >= |texts[j]|
    decreases |texts| - j
  {
    if j + 1 >= |texts| then (if j < |texts| then texts[j] else "")
    else texts[j] + "," + JoinFrom(texts, j + 1)
  }

  /** `JoinFrom` is the library join of the suffix. */
  lemma {:induction false} JoinFromSuffix(texts: seq<string>, j: nat)
    requires j <= |texts|
    ensures JoinFrom(texts, j) == Join(",", texts[j..])
    decreases |texts| - j
  {
    if j + 1 < |texts| {
      JoinFromSuffix(texts, j + 1);
      assert texts[j..][1..] == texts[j + 1..];
    } else if j < |texts| {
      assert texts[j..] == [texts[j]];
    } else {
      assert texts[j..] == [];
    }
  }

  /** The joined texts from the `j`-th on, when another follows: the `j`-th text, a comma, then the rest. */
  lemma {:induction false} JoinFromSplit(texts: seq<string>, j: nat, text: string, i: nat)
    requires j + 1 < |texts|
    requires HoldsAt(text, i, JoinFrom(texts, j)) && Delimited(text, i + |JoinFrom(texts, j)|)
    ensures HoldsAt(text, i, texts[j]) && i + |texts[j]| < |text| && text[i + |texts[j]|] == ','
    ensures HoldsAt(text, i + |texts[j]| + 1, JoinFrom(texts, j + 1))
    ensures Delimited(text, i + |texts[j]| + 1 + |JoinFrom(texts, j + 1)|)
  {
    CommaSplit(text, i, texts[j], JoinFrom(texts, j + 1));
  }

  /** Where the `k`-th of `texts` starts when they are joined by commas from `i`. */
  function Offset(texts: seq<string>, i: nat, k: nat): (p: nat)
    requires k <= |texts|
    ensures p >= i
  {
    if k == 0 then i else Offset(texts, i, k - 1) + |texts[k - 1]| + 1
  }

  /** The decoder's primitive reader at `p` reads `v`, and stops right after `t`. */
  predicate ReadsAt(text: string, p: nat, v: Value, t: string)
  {
    p <= |text| && PrimitiveAt(text, p) == (v, p + |t|)
  }

  /** `text` holds `t` at `p`, and nothing after it continues it. */
  predicate Placed(text: string, p: nat, t: string)
  {
    HoldsAt(text, p, t) && Delimited(text, p + |t|)
  }

  /** A comma follows `t`, which starts at `p`. */
  predicate CommaAfter(text: string, p: nat, t: string)
  {
    p + |t| < |text| && text[p + |t|] == ','
  }

  /**
   * The texts from the `j`-th on, joined by commas from where the `j`-th
   * starts: each of them stands at its offset, delimited, and a comma
   * follows each but the last.
   */
  lemma {:induction false} JoinLayout(texts: seq<string>, j: nat, text: string, i: nat)
    requires j < |texts|
    requires Placed(text, Offset(texts, i, j), JoinFrom(texts, j))
    ensures forall k {:trigger Placed(text, Offset(texts, i, k), texts[k])} :: j <= k < |texts| ==>
      Placed(text, Offset(texts, i, k), texts[k])
    ensures forall k {:trigger CommaAfter(text, Offset(texts, i, k), texts[k])} :: j <= k < |texts| - 1 ==>
      CommaAfter(text, Offset(texts, i, k), texts[k])
    decreases |texts| - j
  {
    var p := Offset(texts, i, j);
    if j + 1 < |texts| {
      JoinFromSplit(texts, j, text, p);
      assert Offset(texts, i, j + 1) == p + |texts[j]| + 1;
      JoinLayout(texts, j + 1, text, i);
    }
  }

  /** A readable scalar's text at `p`, delimited, is read there as the scalar. */
  lemma {:induction false} ItemRoundTrip(enc: Encoder, v: Value, t: string, text: string, p: nat)
    requires Readable(v, enc.escapeNewLines) && t == enc.ValueText(v).value
    requires Placed(text, p, t)
    ensures ReadsAt(text, p, v, t)
  {
    PrimitiveRoundTrip(enc, v, text, p);
  }

  /**
   * The compact body the encoder writes for readable scalars (their
   * stripped texts joined by commas) reads back as those scalars: the
   * decoder's primitive reader, started where each text starts, reads
   * that scalar and stops at the comma before the next.
   */
  lemma {:induction false} BodyRoundTrip(enc: Encoder, vs: seq<Value>, text: string, i: nat)
    requires |vs| > 0 && forall k :: 0 <= k < |vs| ==> IsPrimitive(vs[k]) && Readable(vs[k], enc.escapeNewLines)
    requires Placed(text, i, Join(",", enc.EntryTexts(vs)))
    ensures var texts := enc.EntryTexts(vs);
      forall k {:trigger ReadsAt(text, Offset(texts, i, k), vs[k], texts[k])} :: 0 <= k < |vs| ==>
        ReadsAt(text, Offset(texts, i, k), vs[k], texts[k])
    ensures var texts := enc.EntryTexts(vs);
      forall k {:trigger CommaAfter(text, Offset(texts, i, k), texts[k])} :: 0 <= k < |vs| - 1 ==>
        CommaAfter(text, Offset(texts, i, k), texts[k])
  {
    var texts := enc.EntryTexts(vs);
    JoinFromSuffix(texts, 0);
    assert texts[0..] == texts;
    JoinLayout(texts, 0, text, i);
    forall k | 0 <= k < |vs| ensures ReadsAt(text, Offset(texts, i, k), vs[k], texts[k]) {
      ReadableStripped(enc, vs[k]);
      assert Placed(text, Offset(texts, i, k), texts[k]);
      ItemRoundTrip(enc, vs[k], texts[k], text, Offset(texts, i, k));
    }
  }

  /**
   * The compact data `encode` writes for a dict of readable scalars, read
   * from just inside its opening parenthesis: each value is read where its
   * text starts, a comma follows each but the last, and the closing
   * parenthesis follows the last.
   */
  lemma {:induction false} FlatDataReadsBack(enc: Encoder, es: seq<(string, Value)>)
    requires FlatDict(es) && enc.compact
    requires forall k :: 0 <= k < |es| ==> Readable(es[k].1, enc.escapeNewLines)
    ensures var text, vs := FlatData(enc, es), ValuesOf(es);
      var texts := enc.EntryTexts(vs);
      && text[0] == '(' && text[|text| - 1] == ')' && Offset(texts, 1, |vs| - 1) + |texts[|vs| - 1]| == |text| - 1
      && (forall k {:trigger ReadsAt(text, Offset(texts, 1, k), vs[k], texts[k])} :: 0 <= k < |vs| ==>
            ReadsAt(text, Offset(texts, 1, k), vs[k], texts[k]))
      && (forall k {:trigger CommaAfter(text, Offset(texts, 1, k), texts[k])} :: 0 <= k < |vs| - 1 ==>
            CommaAfter(text, Offset(texts, 1, k), texts[k]))
  {
    var text, vs := FlatData(enc, es), ValuesOf(es);
    var texts := enc.EntryTexts(vs);
    var body := Join(",", texts);
    assert text == "(" + body + ")";
    assert Placed(text, 1, body) by {
      assert text[1..1 + |body|] == body;
      assert text[1 + |body|] == ')';
    }
    BodyRoundTrip(enc, vs, text, 1);
    JoinFromSuffix(texts, 0);
    assert texts[0..] == texts;
    JoinLayout(texts, 0, text, 1);
    JoinFromEnd(texts, 0, 1);
  }

  /** The last text joined from the `j`-th on ends where the whole join ends. */
  lemma {:induction false} JoinFromEnd(texts: seq<string>, j: nat, i: nat)
    requires j < |texts|
    ensures Offset(texts, i, |texts| - 1) + |texts[|texts| - 1]| == Offset(texts, i, j) + |JoinFrom(texts, j)|
    decreases |texts| - j
  {
    if j + 1 < |texts| {
      JoinFromEnd(texts, j + 1, i);
    }
  }
}
