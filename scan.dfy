/**
 * The decoder's character-level readers as functions of the text and a
 * start position: whitespace, identifiers, number tokens, quoted strings,
 * nested block comments, and the line/column bookkeeping of `_advance`.
 * The `Decoding.Decoder` methods walk the text one character at a time and
 * are proved to land where these functions say.
 */
module Scan {
  import opened Wrappers
  import opened Text
  import opened Values

  /** First position at or after `i` that is not whitespace (`_skip_whitespace`). */
  function SkipSpace(text: string, i: nat): (j: nat)
    requires i <= |text|
    ensures i <= j <= |text|
    ensures forall k {:trigger IsSpace(text[k])} :: i <= k < j ==> IsSpace(text[k])
    ensures j < |text| ==> !IsSpace(text[j])
    decreases |text| - i
  {
    if i < |text| && IsSpace(text[i]) then SkipSpace(text, i + 1) else i
  }

  /** End of the run of identifier characters starting at `i`. */
  function IdentRest(text: string, i: nat): (e: nat)
    requires i <= |text|
    ensures i <= e <= |text|
    ensures forall k {:trigger IsIdentChar(text[k])} :: i <= k < e ==> IsIdentChar(text[k])
    ensures e < |text| ==> !IsIdentChar(text[e])
    decreases |text| - i
  {
    if i < |text| && IsIdentChar(text[i]) then IdentRest(text, i + 1) else i
  }

  /**
   * End of the identifier `[a-zA-Z_][a-zA-Z0-9_]*` starting at `i`; `i`
   * itself when no identifier starts there.
   */
  function IdentEnd(text: string, i: nat): (e: nat)
    requires i <= |text|
    ensures i <= e <= |text|
    ensures e > i <==> i < |text| && IsIdentStart(text[i])
    ensures forall k {:trigger IsIdentChar(text[k])} :: i < k < e ==> IsIdentChar(text[k])
    ensures e > i && e < |text| ==> !IsIdentChar(text[e])
  {
    if i < |text| && IsIdentStart(text[i]) then IdentRest(text, i + 1) else i
  }

  /** What `_parse_ident` returns from position `i`: leading whitespace skipped. */
  function IdentAt(text: string, i: nat): string
    requires i <= |text|
  {
    var j := SkipSpace(text, i);
    text[j..IdentEnd(text, j)]
  }

  /** Where `_parse_ident` leaves the cursor. */
  function IdentAtEnd(text: string, i: nat): (e: nat)
    requires i <= |text|
    ensures i <= e <= |text|
  {
    IdentEnd(text, SkipSpace(text, i))
  }

  /** An identifier is never empty once it starts, and holds only identifier characters. */
  lemma IdentAtShape(text: string, i: nat)
    requires i <= |text|
    ensures var id := IdentAt(text, i);
      (id == "" <==> IdentAtEnd(text, i) == SkipSpace(text, i))
      && (id != "" ==> IsIdentStart(id[0]) && forall k :: 0 <= k < |id| ==> IsIdentChar(id[k]))
  {
    var j := SkipSpace(text, i);
    var id := IdentAt(text, i);
    if id != "" {
      forall k | 0 <= k < |id| ensures IsIdentChar(id[k]) {
        assert id[k] == text[j + k];
      }
    }
  }

  /** End of the run of decimal digits starting at `i`. */
  function DigitsEnd(text: string, i: nat): (e: nat)
    requires i <= |text|
    ensures i <= e <= |text|
    ensures AllDigits(text[i..e])
    ensures e < |text| ==> !IsDigit(text[e])
    decreases |text| - i
  {
    if i < |text| && IsDigit(text[i]) then
      var e := DigitsEnd(text, i + 1);
      assert text[i..e] == [text[i]] + text[i + 1..e];
      e
    else i
  }

  /**
   * The parts of a number token as `_read_number` consumes them: an
   * optional `-`, a digit run, an optional `.` and digit run, an optional
   * `e`/`E`, an optional sign and a digit run.  Each field is a position in
   * the text.
   */
  datatype NumberToken = NumberToken(
    start: nat,
    intStart: nat,     // after the optional '-'
    intEnd: nat,       // end of the integer digits
    hasPoint: bool,
    fracEnd: nat,      // end of the fraction digits (== intEnd without a point)
    hasExp: bool,
    expDigits: nat,    // first exponent digit (after 'e' and its sign)
    end: nat)
  {
    /** `is_float` of the source: a `.` or an exponent marker was consumed. */
    predicate IsFloat() { hasPoint || hasExp }
  }

  /** Past the optional leading `-`. */
  function SignEnd(text: string, i: nat): (a: nat)
    requires i <= |text|
    ensures i <= a <= |text|
  {
    if i < |text| && text[i] == '-' then i + 1 else i
  }

  predicate HasPoint(text: string, b: nat)
  {
    b < |text| && text[b] == '.'
  }

  /** Past the optional `.` and fraction digits. */
  function FractionEnd(text: string, b: nat): (c: nat)
    requires b <= |text|
    ensures b <= c <= |text|
  {
    if HasPoint(text, b) then DigitsEnd(text, b + 1) else b
  }

  predicate HasExp(text: string, c: nat)
  {
    c < |text| && (text[c] == 'e' || text[c] == 'E')
  }

  /** Past the optional exponent marker and its sign. */
  function ExponentStart(text: string, c: nat): (d: nat)
    requires c <= |text|
    ensures c <= d <= |text|
  {
    if !HasExp(text, c) then c
    else if c + 1 < |text| && (text[c + 1] == '+' || text[c + 1] == '-') then c + 2
    else c + 1
  }

  function NumberScan(text: string, i: nat): (t: NumberToken)
    requires i <= |text|
    ensures t.start == i && i <= t.intStart <= t.intEnd <= t.fracEnd <= t.expDigits <= t.end <= |text|
  {
    var a := SignEnd(text, i);
    var b := DigitsEnd(text, a);
    var c := FractionEnd(text, b);
    var d := ExponentStart(text, c);
    var e := if HasExp(text, c) then DigitsEnd(text, d) else c;
    NumberToken(i, a, b, HasPoint(text, b), c, HasExp(text, c), d, e)
  }

  /**
   * `int(raw)` or `float(raw)` of the token's text: the integer form needs
   * at least one digit; the float form needs a digit before or after the
   * point and, with an exponent marker, at least one exponent digit.  A
   * float keeps its literal text.  None is the ValueError.
   */
  function NumberValue(text: string, t: NumberToken): (r: Option<Value>)
    requires t.start <= t.intStart <= t.intEnd <= t.fracEnd <= t.expDigits <= t.end <= |text|
    requires AllDigits(text[t.intStart..t.intEnd])
  {
    if !t.IsFloat() then
      if t.intEnd == t.intStart then None
      else
        var n: int := DigitsValue(text[t.intStart..t.intEnd]);
        Some(Int(if t.intStart > t.start then -n else n))
    else
      var mantissa := (t.intEnd - t.intStart) + (if t.hasPoint then t.fracEnd - t.intEnd - 1 else 0);
      if mantissa == 0 || (t.hasExp && t.end == t.expDigits) then None
      else Some(Float(text[t.start..t.end]))
  }

  /** What `_read_number` returns from position `i`; 0 when the text does not convert. */
  function NumberAt(text: string, i: nat): (v: Value)
    requires i <= |text|
  {
    var t := NumberScan(text, i);
    match NumberValue(text, t)
    case Some(v) => v
    case None => Int(0)
  }

  /**
   * The result is an integer exactly when neither a point nor an exponent
   * was read, unless the token does not convert, which gives the integer 0.
   */
  lemma NumberKind(text: string, i: nat)
    requires i <= |text|
    ensures var t := NumberScan(text, i);
      && (NumberValue(text, t).Some? ==> (NumberAt(text, i).Int? <==> !t.IsFloat()))
      && (NumberValue(text, t).None? ==> NumberAt(text, i) == Int(0))
      && (t.IsFloat() && NumberValue(text, t).Some? ==> NumberAt(text, i) == Float(text[i..t.end]))
  {
  }

  /** A digit run that stops at `j` ends there. */
  lemma {:induction false} DigitsEndAt(text: string, i: nat, j: nat)
    requires i <= j <= |text| && AllDigits(text[i..j])
    requires j == |text| || !IsDigit(text[j])
    ensures DigitsEnd(text, i) == j
    decreases j - i
  {
    if i < j {
      assert IsDigit(text[i]) by { assert text[i..j][0] == text[i]; }
      var rest := text[i + 1..j];
      forall k | 0 <= k < |rest| ensures IsDigit(rest[k]) {
        assert rest[k] == text[i..j][k + 1];
      }
      DigitsEndAt(text, i + 1, j);
    }
  }

  /** A run of identifier characters that stops at `j` ends there. */
  lemma {:induction false} IdentRestAt(text: string, i: nat, j: nat)
    requires i <= j <= |text| && forall k :: i <= k < j ==> IsIdentChar(text[k])
    requires j == |text| || !IsIdentChar(text[j])
    ensures IdentRest(text, i) == j
    decreases j - i
  {
    if i < j {
      IdentRestAt(text, i + 1, j);
    }
  }

  /** The text of `str(n)` at `i`, followed by nothing that continues a number, reads back as `n`. */
  lemma NumberAtIntToString(text: string, i: nat, n: int)
    requires i + |IntToString(n)| <= |text| && text[i..i + |IntToString(n)|] == IntToString(n)
    requires var j := i + |IntToString(n)|;
      j == |text| || (!IsDigit(text[j]) && text[j] != '.' && text[j] != 'e' && text[j] != 'E')
    ensures NumberScan(text, i).end == i + |IntToString(n)|
    ensures NumberValue(text, NumberScan(text, i)) == Some(Int(n)) && NumberAt(text, i) == Int(n)
  {
    var s := IntToString(n);
    var j := i + |s|;
    var m: nat := if n < 0 then -n else n;
    var a := if n < 0 then i + 1 else i;
    assert text[i] == s[0];
    if n < 0 {
      assert s == "-" + Digits(m);
      assert text[a..j] == s[1..];
    } else {
      assert IsDigit(Digits(m)[0]);
    }
    assert text[a..j] == Digits(m);
    assert SignEnd(text, i) == a;
    DigitsEndAt(text, a, j);
    DigitsValueOfDigits(m);
  }

  /** A lone minus sign does not convert. */
  lemma LoneMinus(text: string, i: nat)
    requires i < |text| && text[i] == '-'
    requires i + 1 == |text| || (!IsDigit(text[i + 1]) && text[i + 1] != '.' && text[i + 1] != 'e' && text[i + 1] != 'E')
    ensures NumberScan(text, i).end == i + 1
    ensures NumberValue(text, NumberScan(text, i)).None?
  {
  }

  /** The character an escape sequence `\c` stands for inside a quoted string. */
  function Unescape(c: char): (r: char)
    ensures c !in "ntr" ==> r == c
  {
    match c
    case 'n' => '\n'
    case 't' => '\t'
    case 'r' => '\r'
    case _ => c
  }

  /**
   * The body of a quoted string from position `i` (just after the opening
   * quote), its decoded characters appended to `acc`, and the position of
   * the closing quote, or the end of the text when it is missing.
   */
  function QuotedScan(text: string, i: nat, acc: string): (r: (string, nat))
    requires i <= |text|
    ensures i <= r.1 <= |text|
    ensures r.1 < |text| ==> text[r.1] == '"'
    decreases |text| - i
  {
    if i == |text| then (acc, |text|)
    else if text[i] == '"' then (acc, i)
    else if text[i] == '\\' then
      if i + 1 == |text| then (acc, |text|)
      else QuotedScan(text, i + 2, acc + [Unescape(text[i + 1])])
    else QuotedScan(text, i + 1, acc + [text[i]])
  }

  /**
   * A block comment from position `i` at nesting `depth`: the collected
   * text appended to `acc`, where scanning stopped, and the nesting left
   * open there (0 when the comment was closed).  `\c` keeps `c`, an inner
   * `/*` and every `*/` but the last are kept.
   */
  function CommentScan(text: string, i: nat, depth: nat, acc: string): (r: (string, nat, nat))
    requires i <= |text|
    ensures i <= r.1 <= |text|
    ensures r.2 == 0 || r.1 == |text|
    decreases |text| - i
  {
    if i == |text| || depth == 0 then (acc, i, depth)
    else if text[i] == '\\' then
      if i + 1 == |text| then (acc, |text|, depth)
      else CommentScan(text, i + 2, depth, acc + [text[i + 1]])
    else if text[i] == '/' && i + 1 < |text| && text[i + 1] == '*' then
      CommentScan(text, i + 2, depth + 1, acc + "/*")
    else if text[i] == '*' && i + 1 < |text| && text[i + 1] == '/' then
      CommentScan(text, i + 2, depth - 1, if depth > 1 then acc + "*/" else acc)
    else CommentScan(text, i + 1, depth, acc + [text[i]])
  }

  /** `line` after the cursor has moved over `text[..i]` from 0: one per newline. */
  function LineAt(text: string, i: nat): nat
    requires i <= |text|
  {
    if i == 0 then 0 else LineAt(text, i - 1) + (if text[i - 1] == '\n' then 1 else 0)
  }

  /** `col` after the cursor has moved over `text[..i]` from 0: reset to 1 after a newline. */
  function ColAt(text: string, i: nat): nat
    requires i <= |text|
  {
    if i == 0 then 0 else if text[i - 1] == '\n' then 1 else ColAt(text, i - 1) + 1
  }

  /** The line counter is the number of newlines passed. */
  lemma {:induction false} LineAtCountsNewlines(text: string, i: nat)
    requires i <= |text|
    ensures LineAt(text, i) == multiset(text[..i])['\n']
  {
    if i > 0 {
      LineAtCountsNewlines(text, i - 1);
      assert text[..i] == text[..i - 1] + [text[i - 1]];
    }
  }

  /**
   * The column counter is the distance from the last newline passed, or
   * from the start of the text when there is none.
   */
  lemma {:induction false} ColAtSinceNewline(text: string, p: int, i: nat)
    requires -1 <= p < i <= |text|
    requires p >= 0 ==> text[p] == '\n'
    requires forall k :: p < k < i ==> text[k] != '\n'
    ensures ColAt(text, i) == i - p - (if p < 0 then 1 else 0)
  {
    if i - 1 > p {
      ColAtSinceNewline(text, p, i - 1);
    }
  }
}
