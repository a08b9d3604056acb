/**
 * The token-to-value transformers of server/szurubooru/search/configs/util.py:
 * `wildcard_transformer`, `enum_transformer` and `integer_transformer`.
 */
module Transformers {
  import opened Results
  import opened Unescaping

  // ---------------------------------------------------------------------------------------------
  // Python's str.replace

  /** `s.replace(pat, rep)`: every leftmost, non-overlapping occurrence of `pat` is replaced. */
  function ReplaceAll(s: string, pat: string, rep: string): string
    requires |pat| > 0
    decreases |s|
  {
    if |s| < |pat| then s
    else if s[..|pat|] == pat then rep + ReplaceAll(s[|pat|..], pat, rep)
    else [s[0]] + ReplaceAll(s[1..], pat, rep)
  }

  predicate OccursAt(s: string, pat: string, i: nat)
  {
    i + |pat| <= |s| && s[i..i + |pat|] == pat
  }

  predicate Contains(s: string, pat: string)
  {
    exists i: nat | i <= |s| :: OccursAt(s, pat, i)
  }

  /** Replacing a pattern that does not occur changes nothing. */
  lemma {:induction false} ReplaceAbsent(s: string, pat: string, rep: string)
    requires |pat| > 0
    requires !Contains(s, pat)
    ensures ReplaceAll(s, pat, rep) == s
    decreases |s|
  {
    if |s| >= |pat| {
      assert !OccursAt(s, pat, 0);
      forall i: nat ensures !OccursAt(s[1..], pat, i) {
        if OccursAt(s[1..], pat, i) {
          assert s[1..][i..i + |pat|] == s[i + 1..i + 1 + |pat|];
          assert OccursAt(s, pat, i + 1);
        }
      }
      ReplaceAbsent(s[1..], pat, rep);
    }
  }

  lemma AbsentChar(s: string, c: char)
    requires c !in s
    ensures !Contains(s, [c])
  {
    forall i: nat | i <= |s| ensures !OccursAt(s, [c], i) {
      if i + 1 <= |s| {
        assert s[i..i + 1] == [s[i]];
        assert s[i] in s;
      }
    }
  }

  /** A one-character replacement works on each part of a concatenation separately. */
  lemma {:induction false} ReplaceCharConcat(a: string, b: string, c: char, rep: string)
    ensures ReplaceAll(a + b, [c], rep) == ReplaceAll(a, [c], rep) + ReplaceAll(b, [c], rep)
    decreases |a|
  {
    if a == [] {
      assert a + b == b;
    } else {
      assert (a + b)[..1] == a[..1];
      assert (a + b)[1..] == a[1..] + b;
      ReplaceCharConcat(a[1..], b, c, rep);
    }
  }

  /** A prefix that cannot start an occurrence of `pat` is copied through unchanged. */
  lemma {:induction false} ReplaceSkip(a: string, b: string, pat: string, rep: string)
    requires |pat| > 0
    requires forall i :: 0 <= i < |a| ==> a[i] != pat[0]
    ensures ReplaceAll(a + b, pat, rep) == a + ReplaceAll(b, pat, rep)
    decreases |a|
  {
    if a == [] {
      assert a + b == b;
    } else {
      var ab := a + b;
      assert ab[0] == a[0];
      if |ab| >= |pat| {
        assert ab[..|pat|][0] == a[0];
        assert ab[..|pat|] != pat;
      }
      assert ab[1..] == a[1..] + b;
      ReplaceSkip(a[1..], b, pat, rep);
      assert ReplaceAll(ab, pat, rep) == [a[0]] + ReplaceAll(ab[1..], pat, rep);
      assert [a[0]] + (a[1..] + ReplaceAll(b, pat, rep)) == a + ReplaceAll(b, pat, rep);
    }
  }

  lemma ReplaceHit(b: string, pat: string, rep: string)
    requires |pat| > 0
    ensures ReplaceAll(pat + b, pat, rep) == rep + ReplaceAll(b, pat, rep)
  {
    assert (pat + b)[..|pat|] == pat;
    assert (pat + b)[|pat|..] == b;
  }

  // ---------------------------------------------------------------------------------------------
  // wildcard_transformer

  /** The three metacharacter escapes of SQL LIKE, applied in the source's order. */
  function EscapeLikeChars(s: string): string
  {
    ReplaceAll(ReplaceAll(ReplaceAll(s, "\\", "\\\\"), "%", "\\%"), "_", "\\_")
  }

  /** `wildcard_transformer(value)`: unescape in wildcard mode, escape LIKE metacharacters, then turn the sentinel into `%`. */
  function WildcardTransformer(value: string): Result<string, Failure>
  {
    match Unescaped(value, true)
    case Ok(s) => Ok(ReplaceAll(EscapeLikeChars(s), WildcardText, "%"))
    case Err(e) => Err(e)
  }

  /** The LIKE text one character stands for: `\`, `%` and `_` are escaped, everything else is itself. */
  function LikeChar(c: char): string
  {
    if c == '\\' then "\\\\" else if c == '%' then "\\%" else if c == '_' then "\\_" else [c]
  }

  /** The LIKE pattern a sequence of units means: the wildcard is `%`, characters match literally. */
  function LikePattern(us: seq<Unit>): string
  {
    if us == [] then []
    else (match us[0] case Star => "%" case Char(c) => LikeChar(c)) + LikePattern(us[1..])
  }

  /** The units with the LIKE escapes applied but the sentinel text still in place. */
  function EscapedUnits(us: seq<Unit>): string
  {
    if us == [] then []
    else (match us[0] case Star => WildcardText case Char(c) => LikeChar(c)) + EscapedUnits(us[1..])
  }

  lemma EscapeLikeCharsConcat(a: string, b: string)
    ensures EscapeLikeChars(a + b) == EscapeLikeChars(a) + EscapeLikeChars(b)
  {
    ReplaceCharConcat(a, b, '\\', "\\\\");
    var a1, b1 := ReplaceAll(a, "\\", "\\\\"), ReplaceAll(b, "\\", "\\\\");
    ReplaceCharConcat(a1, b1, '%', "\\%");
    var a2, b2 := ReplaceAll(a1, "%", "\\%"), ReplaceAll(b1, "%", "\\%");
    ReplaceCharConcat(a2, b2, '_', "\\_");
  }

  lemma EscapeLikeCharsOfChar(c: char)
    ensures EscapeLikeChars([c]) == LikeChar(c)
  {
    var s1 := ReplaceAll([c], "\\", "\\\\");
    var s2 := ReplaceAll(s1, "%", "\\%");
    if c == '\\' {
      assert s1 == "\\\\" + ReplaceAll([], "\\", "\\\\");
      AbsentChar(s1, '%');
      ReplaceAbsent(s1, "%", "\\%");
      AbsentChar(s2, '_');
      ReplaceAbsent(s2, "_", "\\_");
    } else if c == '%' {
      AbsentChar([c], '\\');
      ReplaceAbsent([c], "\\", "\\\\");
      assert s2 == "\\%" + ReplaceAll([], "%", "\\%");
      AbsentChar(s2, '_');
      ReplaceAbsent(s2, "_", "\\_");
    } else if c == '_' {
      AbsentChar([c], '\\');
      ReplaceAbsent([c], "\\", "\\\\");
      AbsentChar(s1, '%');
      ReplaceAbsent(s1, "%", "\\%");
      assert ReplaceAll(s2, "_", "\\_") == "\\_" + ReplaceAll([], "_", "\\_");
    } else {
      AbsentChar([c], '\\');
      ReplaceAbsent([c], "\\", "\\\\");
      AbsentChar(s1, '%');
      ReplaceAbsent(s1, "%", "\\%");
      AbsentChar(s2, '_');
      ReplaceAbsent(s2, "_", "\\_");
    }
  }

  lemma SentinelHasNoLikeChars()
    ensures EscapeLikeChars(WildcardText) == WildcardText
  {
    AbsentChar(WildcardText, '\\');
    ReplaceAbsent(WildcardText, "\\", "\\\\");
    AbsentChar(WildcardText, '%');
    ReplaceAbsent(WildcardText, "%", "\\%");
    AbsentChar(WildcardText, '_');
    ReplaceAbsent(WildcardText, "_", "\\_");
  }

  lemma {:induction false} EscapeLikeCharsOfRender(us: seq<Unit>)
    ensures EscapeLikeChars(Render(us)) == EscapedUnits(us)
  {
    if us == [] {
      AbsentChar([], '\\');
      ReplaceAbsent([], "\\", "\\\\");
      AbsentChar([], '%');
      ReplaceAbsent([], "%", "\\%");
      AbsentChar([], '_');
      ReplaceAbsent([], "_", "\\_");
    } else {
      var head := match us[0] case Char(c) => [c] case Star => WildcardText;
      EscapeLikeCharsConcat(head, Render(us[1..]));
      EscapeLikeCharsOfRender(us[1..]);
      match us[0]
      case Char(c) => EscapeLikeCharsOfChar(c);
      case Star => SentinelHasNoLikeChars();
    }
  }

  /** Units `i` to `i + |WildcardText|` are literal characters that spell out the sentinel text. */
  predicate SpellsSentinelAt(us: seq<Unit>, i: nat)
  {
    i + |WildcardText| <= |us| && forall k :: 0 <= k < |WildcardText| ==> us[i + k] == Char(WildcardText[k])
  }

  /** No literal characters of the unescaped token spell out the sentinel text. */
  predicate NoSpelledSentinel(us: seq<Unit>)
  {
    forall i: nat :: i < |us| ==> !SpellsSentinelAt(us, i)
  }

  /** A character's LIKE text is the character itself or an escape starting with `\\`. */
  lemma LikeCharShape(c: char)
    ensures LikeChar(c) == [c] || LikeChar(c)[0] == '\\'
  {
  }

  /**
   * Escaped units whose text begins with `p`, a text without `(` or `\\`, begin with one literal
   * character unit per character of `p`: the wildcard's text starts with `(` and every LIKE escape
   * with `\\`.
   */
  lemma {:induction false} PlainPrefixUnits(us: seq<Unit>, p: string)
    requires forall j :: 0 <= j < |p| ==> p[j] != '(' && p[j] != '\\'
    requires |p| <= |EscapedUnits(us)| && EscapedUnits(us)[..|p|] == p
    ensures |p| <= |us| && forall j :: 0 <= j < |p| ==> us[j] == Char(p[j])
    decreases |p|
  {
    if p != [] {
      var e := EscapedUnits(us);
      assert e[0] == p[0];
      assert us != [];
      var rest := EscapedUnits(us[1..]);
      match us[0]
      case Star =>
        assert false;
      case Char(c) =>
        LikeCharShape(c);
        assert e == LikeChar(c) + rest;
        assert LikeChar(c) == [c];
        forall j | 0 <= j < |p| - 1 ensures rest[j] == p[j + 1] {
          assert rest[j] == e[j + 1];
          assert e[..|p|][j + 1] == p[j + 1];
        }
        assert rest[..|p| - 1] == p[1..];
        PlainPrefixUnits(us[1..], p[1..]);
        forall j | 0 <= j < |p| ensures us[j] == Char(p[j]) {
          if j > 0 { assert us[j] == us[1..][j - 1]; }
        }
    }
  }

  /** Dropping the first unit keeps the sentinel unspelled. */
  lemma NoSpelledSentinelTail(us: seq<Unit>)
    requires us != [] && NoSpelledSentinel(us)
    ensures NoSpelledSentinel(us[1..])
  {
    forall i: nat | i < |us[1..]| ensures !SpellsSentinelAt(us[1..], i) {
      if SpellsSentinelAt(us[1..], i) {
        forall k | 0 <= k < |WildcardText| ensures us[i + 1 + k] == Char(WildcardText[k]) {
          assert us[1..][i + k] == us[i + 1 + k];
        }
        assert SpellsSentinelAt(us, i + 1);
      }
    }
  }

  /** After its opening `(`, the sentinel text holds neither `(` nor `\\`. */
  lemma SentinelTailIsPlain()
    ensures forall j :: 0 <= j < |WildcardText[1..]| ==> WildcardText[1..][j] != '(' && WildcardText[1..][j] != '\\'
  {
    var tail := WildcardText[1..];
    assert tail == "--wildcard--)";
  }

  /** Escaped text that starts with the sentinel text at a typed `(` was typed in full. */
  lemma SentinelAtParenthesisIsSpelled(us: seq<Unit>)
    requires us != [] && us[0] == Char('(')
    requires |EscapedUnits(us)| >= |WildcardText| && EscapedUnits(us)[..|WildcardText|] == WildcardText
    ensures SpellsSentinelAt(us, 0)
  {
    var e := EscapedUnits(us);
    var rest := EscapedUnits(us[1..]);
    var w := WildcardText;
    assert e == "(" + rest;
    var tail := w[1..];
    SentinelTailIsPlain();
    forall j | 0 <= j < |tail| ensures rest[j] == tail[j] {
      assert rest[j] == e[j + 1];
      assert e[..|w|][j + 1] == w[j + 1];
    }
    assert rest[..|tail|] == tail;
    PlainPrefixUnits(us[1..], tail);
    forall k | 0 <= k < |w| ensures us[k] == Char(w[k]) {
      if k > 0 { assert us[k] == us[1..][k - 1]; }
    }
  }

  /** A typed `(` cannot start the sentinel text unless the units after it spell the rest of it. */
  lemma OpeningParenthesisIsLiteral(us: seq<Unit>)
    requires us != [] && us[0] == Char('(') && NoSpelledSentinel(us)
    ensures ReplaceAll(EscapedUnits(us), WildcardText, "%") == "(" + ReplaceAll(EscapedUnits(us[1..]), WildcardText, "%")
  {
    var e := EscapedUnits(us);
    var rest := EscapedUnits(us[1..]);
    assert e == "(" + rest;
    var w := WildcardText;
    if |e| >= |w| && e[..|w|] == w {
      SentinelAtParenthesisIsSpelled(us);
      assert false;
    }
    if |e| < |w| {
      assert |rest| < |w|;
    } else {
      assert e[1..] == rest;
    }
  }

  lemma {:induction false} SentinelToPercent(us: seq<Unit>)
    requires NoSpelledSentinel(us)
    ensures ReplaceAll(EscapedUnits(us), WildcardText, "%") == LikePattern(us)
  {
    if us == [] {
      assert !OccursAt([], WildcardText, 0);
      ReplaceAbsent([], WildcardText, "%");
    } else {
      NoSpelledSentinelTail(us);
      SentinelToPercent(us[1..]);
      match us[0]
      case Star =>
        ReplaceHit(EscapedUnits(us[1..]), WildcardText, "%");
      case Char(c) =>
        if c == '(' {
          OpeningParenthesisIsLiteral(us);
        } else {
          assert forall i :: 0 <= i < |LikeChar(c)| ==> LikeChar(c)[i] != WildcardText[0];
          ReplaceSkip(LikeChar(c), EscapedUnits(us[1..]), WildcardText, "%");
        }
    }
  }

  /**
   * `wildcard_transformer` turns each bare `*` into `%`, each literal `\`, `%` and `_` into its
   * LIKE escape, and leaves every other character alone, unless the token's literal characters
   * spell out the sentinel text; a bad escape is the scanner's error.
   */
  lemma WildcardTransformerMeaning(value: string)
    ensures UnescapeUnits(value, true).Err? ==> WildcardTransformer(value) == Err(UnescapeUnits(value, true).error)
    ensures UnescapeUnits(value, true).Ok? && NoSpelledSentinel(UnescapeUnits(value, true).value) ==>
              WildcardTransformer(value) == Ok(LikePattern(UnescapeUnits(value, true).value))
  {
    var r := UnescapeUnits(value, true);
    if r.Ok? {
      EscapeLikeCharsOfRender(r.value);
      if NoSpelledSentinel(r.value) {
        SentinelToPercent(r.value);
      }
    }
  }

  /** Without a `(` in the token, no typed text can be mistaken for the sentinel. */
  lemma WildcardTransformerWithoutParenthesis(value: string)
    requires '(' !in value
    ensures WildcardTransformer(value) ==
      match UnescapeUnits(value, true)
      case Ok(us) => Ok(LikePattern(us))
      case Err(e) => Err(e)
  {
    var r := UnescapeUnits(value, true);
    if r.Ok? {
      forall i: nat | i < |r.value| ensures !SpellsSentinelAt(r.value, i) {
        assert r.value[i] != Char('(');
        assert WildcardText[0] == '(';
      }
    }
    WildcardTransformerMeaning(value);
  }

  /** A token free of `\`, `*`, `%`, `_` and of the sentinel text passes through unchanged. */
  lemma WildcardTransformerPlainText(value: string)
    requires '\\' !in value && '*' !in value && '%' !in value && '_' !in value
    requires !Contains(value, WildcardText)
    ensures WildcardTransformer(value) == Ok(value)
  {
    UnescapePlainText(value, true);
    AbsentChar(value, '\\');
    ReplaceAbsent(value, "\\", "\\\\");
    AbsentChar(value, '%');
    ReplaceAbsent(value, "%", "\\%");
    AbsentChar(value, '_');
    ReplaceAbsent(value, "_", "\\_");
    ReplaceAbsent(value, WildcardText, "%");
  }

  /** A token that spells out the sentinel text itself is read as a bare wildcard. */
  lemma WildcardTransformerSentinelCollision()
    ensures WildcardTransformer(WildcardText) == Ok("%")
  {
    var w := WildcardText;
    UnescapePlainText(w, true);
    assert Unescaped(w, true) == Ok(w);
    SentinelHasNoLikeChars();
    ReplaceHit([], w, "%");
    assert w + [] == w;
    assert ReplaceAll([], w, "%") == [];
    assert ReplaceAll(EscapeLikeChars(w), w, "%") == "%";
  }

  // ---------------------------------------------------------------------------------------------
  // enum_transformer

  /** Python's `str.lower` on ASCII letters. */
  function LowerChar(c: char): char
  {
    if 'A' <= c <= 'Z' then (c as int + 32) as char else c
  }

  function Lower(s: string): string
  {
    seq(|s|, i requires 0 <= i < |s| => LowerChar(s[i]))
  }

  /** `enum_transformer(available, value)`: look up the unescaped, lower-cased token. */
  function EnumTransformer<V>(available: map<string, V>, value: string): Result<V, Failure>
  {
    match Unescaped(Lower(value), false)
    case Err(e) => Err(e)
    case Ok(key) => if key in available then Ok(available[key]) else Err(SearchError(UnknownEnumValue))
  }

  /** The lookup ignores the case of ASCII letters. */
  lemma EnumTransformerIgnoresCase<V>(available: map<string, V>, value: string)
    ensures EnumTransformer(available, value) == EnumTransformer(available, Lower(value))
  {
    assert Lower(Lower(value)) == Lower(value);
  }

  /**
   * For a token without escapes, the lookup succeeds exactly when the lower-cased token is an
   * available key, yields that key's value, and otherwise raises SearchError.
   */
  lemma EnumTransformerLookup<V>(available: map<string, V>, value: string)
    requires '\\' !in value
    ensures EnumTransformer(available, value).Ok? <==> Lower(value) in available
    ensures EnumTransformer(available, value).Ok? ==> EnumTransformer(available, value).value == available[Lower(value)]
    ensures EnumTransformer(available, value).Err? ==> EnumTransformer(available, value).error == SearchError(UnknownEnumValue)
  {
    assert '\\' !in Lower(value) by {
      forall i | 0 <= i < |value| ensures Lower(value)[i] != '\\' {
        assert value[i] in value;
      }
    }
    UnescapePlainText(Lower(value), false);
  }

  // ---------------------------------------------------------------------------------------------
  // integer_transformer

  predicate IsDigit(c: char) { '0' <= c <= '9' }

  /**
   * The characters `int()` strips from both ends: every character Python's `str.isspace` accepts
   * except U+001C to U+001F. Those four are below 127, so `int()` keeps them as they are and then
   * strips only the C-locale blanks among them.
   */
  predicate IsSpace(c: char)
  {
    || '\t' <= c <= '\r'
    || c == ' '
    || c == '\U{0085}' || c == '\U{00A0}' || c == '\U{1680}'
    || '\U{2000}' <= c <= '\U{200A}'
    || c == '\U{2028}' || c == '\U{2029}' || c == '\U{202F}' || c == '\U{205F}' || c == '\U{3000}'
  }

  function StripLeft(s: string): string
  {
    if s != [] && IsSpace(s[0]) then StripLeft(s[1..]) else s
  }

  function StripRight(s: string): string
  {
    if s != [] && IsSpace(s[|s| - 1]) then StripRight(s[..|s| - 1]) else s
  }

  /** Digits, optionally separated by single underscores, starting and ending with a digit. */
  predicate IsDigitGroup(d: string)
  {
    && |d| > 0 && IsDigit(d[0]) && IsDigit(d[|d| - 1])
    && (forall i :: 0 <= i < |d| ==> IsDigit(d[i]) || d[i] == '_')
    && (forall i :: 0 <= i < |d| - 1 ==> !(d[i] == '_' && d[i + 1] == '_'))
  }

  /** The decimal value of a digit group, underscores skipped. */
  function DigitsValue(d: string): nat
  {
    if d == [] then 0
    else if IsDigit(d[|d| - 1]) then DigitsValue(d[..|d| - 1]) * 10 + (d[|d| - 1] as int - '0' as int)
    else DigitsValue(d[..|d| - 1])
  }

  /** Python's `int(s)` for base-10 text: surrounding whitespace, an optional sign, a digit group. */
  function ParseInt(s: string): Option<int>
  {
    var t := StripRight(StripLeft(s));
    var negative := |t| > 0 && t[0] == '-';
    var d := if |t| > 0 && (t[0] == '-' || t[0] == '+') then t[1..] else t;
    if IsDigitGroup(d) then Some(if negative then 0 - DigitsValue(d) as int else DigitsValue(d) as int) else None
  }

  /** `integer_transformer(value)`: `int(unescape(value))`; a malformed number raises ValueError. */
  function IntegerTransformer(value: string): Result<int, Failure>
  {
    match Unescaped(value, false)
    case Err(e) => Err(e)
    case Ok(s) => match ParseInt(s) case Some(n) => Ok(n) case None => Err(ValueError)
  }

  function DigitChar(n: nat): char
    requires n < 10
  {
    ('0' as int + n) as char
  }

  /** The decimal text of a natural number, most significant digit first. */
  function NatDigits(n: nat): (d: string)
    ensures |d| > 0 && forall i :: 0 <= i < |d| ==> IsDigit(d[i])
  {
    if n < 10 then [DigitChar(n)] else NatDigits(n / 10) + [DigitChar(n % 10)]
  }

  /** The decimal text of an integer, with a leading `-` when negative. */
  function DecimalText(n: int): string
  {
    if n < 0 then "-" + NatDigits(-n) else NatDigits(n)
  }

  lemma {:induction false} NatDigitsValue(n: nat)
    ensures DigitsValue(NatDigits(n)) == n
  {
    var d := NatDigits(n);
    if n >= 10 {
      NatDigitsValue(n / 10);
      assert d[..|d| - 1] == NatDigits(n / 10);
    }
  }

  /** Text that neither starts nor ends with whitespace is left alone by the strip. */
  lemma StripUnpadded(t: string)
    requires t != [] && !IsSpace(t[0]) && !IsSpace(t[|t| - 1])
    ensures StripRight(StripLeft(t)) == t
  {
  }

  /** Python's `int()` reads the decimal text of any integer back as that integer. */
  lemma ParseIntOfDecimalText(n: int)
    ensures ParseInt(DecimalText(n)) == Some(n)
  {
    var s := DecimalText(n);
    var d := NatDigits(if n < 0 then -n else n);
    assert s[|s| - 1] == d[|d| - 1];
    StripUnpadded(s);
    NatDigitsValue(if n < 0 then -n else n);
    if n < 0 {
      assert s[1..] == d;
    }
  }

  /** Every integer written in decimal reads back as itself. */
  lemma IntegerTransformerRoundTrip(n: int)
    ensures IntegerTransformer(DecimalText(n)) == Ok(n)
  {
    var s := DecimalText(n);
    var d := NatDigits(if n < 0 then -n else n);
    assert '\\' !in s by {
      forall i | 0 <= i < |s| ensures s[i] != '\\' {
        if n < 0 && i > 0 { assert s[i] == d[i - 1]; }
      }
    }
    IntegerTransformerOfPlainText(s);
    ParseIntOfDecimalText(n);
  }

  /** Without backslashes, `integer_transformer` is just `int()`: a malformed number raises ValueError. */
  lemma IntegerTransformerOfPlainText(value: string)
    requires '\\' !in value
    ensures IntegerTransformer(value) == match ParseInt(value) case Some(n) => Ok(n) case None => Err(ValueError)
  {
    UnescapePlainText(value, false);
  }

  /** Stripping trailing whitespace keeps a first character that is not whitespace. */
  lemma {:induction false} StripRightKeepsFront(s: string)
    requires s != [] && !IsSpace(s[0])
    ensures StripRight(s) != [] && StripRight(s)[0] == s[0]
  {
    if IsSpace(s[|s| - 1]) {
      StripRightKeepsFront(s[..|s| - 1]);
    }
  }

  /**
   * The information separators U+001C to U+001F count as whitespace for `str.isspace` but not for
   * `int()`: text starting with one is no number.
   */
  lemma ParseIntRejectsInformationSeparator(c: char, rest: string)
    requires '\U{001C}' <= c <= '\U{001F}'
    ensures ParseInt([c] + rest) == None
  {
    var s := [c] + rest;
    assert StripLeft(s) == s;
    StripRightKeepsFront(s);
  }

  /** So `integer_transformer` raises ValueError on such a token. */
  lemma IntegerTransformerRejectsInformationSeparator(c: char, rest: string)
    requires '\U{001C}' <= c <= '\U{001F}' && '\\' !in rest
    ensures IntegerTransformer([c] + rest) == Err(ValueError)
  {
    IntegerTransformerOfPlainText([c] + rest);
    ParseIntRejectsInformationSeparator(c, rest);
  }

  /** Python's `int()` refuses two underscores in a row. */
  lemma ParseIntRejectsDoubleUnderscore()
    ensures ParseInt("1__0") == None
  {
    var t := "1__0";
    StripUnpadded(t);
    assert !IsDigitGroup(t) by { assert t[1] == '_' && t[2] == '_'; }
  }

  lemma IntegerTransformerRejectsDoubleUnderscore()
    ensures IntegerTransformer("1__0") == Err(ValueError)
  {
    var t := "1__0";
    assert '\\' !in t by { assert t == ['1', '_', '_', '0']; }
    IntegerTransformerOfPlainText(t);
    ParseIntRejectsDoubleUnderscore();
  }
}
