/**
 * The escape scanner of search tokens (`unescape` in server/szurubooru/search/configs/util.py).
 *
 * A token is scanned left to right. A backslash must be followed by one of `*\:-.,`, and the pair
 * stands for that character; in wildcard mode a bare `*` stands for the wildcard sentinel; every
 * other character stands for itself. The scanner's output is described twice: as a sequence of
 * units (one per loop step) and as the Python string those units are appended into.
 */
module Unescaping {
  import opened Results

  /** The text that stands for an unescaped `*` in the scanner's output. */
  const WildcardText: string := "(--wildcard--)"

  /** The characters that may follow a backslash. */
  const Escapable: set<char> := {'*', '\\', ':', '-', '.', ','}

  /** What one loop step of the scanner emits: a character, or the wildcard. */
  datatype Unit = Char(c: char) | Star

  /** The string the scanner builds from its units. */
  function Render(us: seq<Unit>): string
  {
    if us == [] then []
    else (match us[0] case Char(c) => [c] case Star => WildcardText) + Render(us[1..])
  }

  function Then(done: seq<Unit>, rest: Result<seq<Unit>, Failure>): Result<seq<Unit>, Failure>
  {
    match rest
    case Ok(us) => Ok(done + us)
    case Err(e) => Err(e)
  }

  /** The units the scanner emits for `text`, or the error it raises first. */
  function UnescapeUnits(text: string, special: bool): (r: Result<seq<Unit>, Failure>)
    // one unit per step, and every step consumes one or two characters
    ensures r.Ok? ==> |r.value| <= |text| <= 2 * |r.value|
    // the wildcard unit only ever appears in wildcard mode
    ensures r.Ok? && !special ==> forall i :: 0 <= i < |r.value| ==> r.value[i].Char?
    // every emitted character comes from the token
    ensures r.Ok? ==> forall i :: 0 <= i < |r.value| && r.value[i].Char? ==> r.value[i].c in text
    // only a backslash can make the scanner fail, and it fails with a SearchError
    ensures r.Err? ==> '\\' in text && r.error.SearchError?
    decreases |text|
  {
    if text == [] then Ok([])
    else if text[0] == '\\' then
      if |text| == 1 then Err(SearchError(DanglingEscape))
      else if text[1] !in Escapable then Err(SearchError(UnknownEscape))
      else Then([Char(text[1])], UnescapeUnits(text[2..], special))
    else if text[0] == '*' && special then Then([Star], UnescapeUnits(text[1..], special))
    else Then([Char(text[0])], UnescapeUnits(text[1..], special))
  }

  /** The value of `unescape(text, make_wildcards_special=special)`. */
  function Unescaped(text: string, special: bool): Result<string, Failure>
  {
    match UnescapeUnits(text, special)
    case Ok(us) => Ok(Render(us))
    case Err(e) => Err(e)
  }

  lemma ThenThen(a: seq<Unit>, b: seq<Unit>, r: Result<seq<Unit>, Failure>)
    ensures Then(a, Then(b, r)) == Then(a + b, r)
  {
    if r.Ok? {
      assert a + (b + r.value) == (a + b) + r.value;
    }
  }

  lemma ThenNothing(r: Result<seq<Unit>, Failure>)
    ensures Then([], r) == r
  {
    if r.Ok? {
      assert [] + r.value == r.value;
    }
  }

  lemma {:induction false} RenderAppend(us: seq<Unit>, vs: seq<Unit>)
    ensures Render(us + vs) == Render(us) + Render(vs)
  {
    if us == [] {
      assert us + vs == vs;
    } else {
      assert (us + vs)[0] == us[0];
      assert (us + vs)[1..] == us[1..] + vs;
      RenderAppend(us[1..], vs);
    }
  }

  /** The scanner loop of `unescape`, building the output string one step at a time. */
  method Unescape(text: string, special: bool) returns (r: Result<string, Failure>)
    ensures r == Unescaped(text, special)
  {
    var output := "";
    ghost var units: seq<Unit> := [];
    var i := 0;
    assert text[i..] == text;
    ThenNothing(UnescapeUnits(text, special));
    while i < |text|
      invariant 0 <= i <= |text|
      invariant output == Render(units)
      invariant UnescapeUnits(text, special) == Then(units, UnescapeUnits(text[i..], special))
    {
      ghost var rest := text[i..];
      ghost var before := units;
      assert rest[0] == text[i];
      var piece: string;
      if text[i] == '\\' {
        if i + 1 >= |text| {
          return Err(SearchError(DanglingEscape));
        }
        var c := text[i + 1];
        i := i + 1;
        if c !in Escapable {
          return Err(SearchError(UnknownEscape));
        }
        assert rest[1] == c && rest[2..] == text[i + 1..];
        ThenThen(before, [Char(c)], UnescapeUnits(text[i + 1..], special));
        piece := [c];
        units := units + [Char(c)];
      } else if text[i] == '*' && special {
        assert rest[1..] == text[i + 1..];
        ThenThen(before, [Star], UnescapeUnits(text[i + 1..], special));
        piece := WildcardText;
        units := units + [Star];
      } else {
        assert rest[1..] == text[i + 1..];
        ThenThen(before, [Char(text[i])], UnescapeUnits(text[i + 1..], special));
        piece := [text[i]];
        units := units + [Char(text[i])];
      }
      RenderAppend(units[..|units| - 1], [units[|units| - 1]]);
      assert units[..|units| - 1] + [units[|units| - 1]] == units;
      output := output + piece;
      i := i + 1;
    }
    assert text[i..] == [];
    assert units + [] == units;
    return Ok(output);
  }

  /** Scanning a concatenation scans the first part, then goes on with the second. */
  lemma {:induction false} UnescapeConcat(p: string, q: string, special: bool)
    requires UnescapeUnits(p, special).Ok?
    ensures UnescapeUnits(p + q, special) == Then(UnescapeUnits(p, special).value, UnescapeUnits(q, special))
    decreases |p|
  {
    if p == [] {
      assert p + q == q;
      ThenNothing(UnescapeUnits(q, special));
    } else if p[0] == '\\' {
      assert (p + q)[0] == p[0] && (p + q)[1] == p[1];
      assert (p + q)[2..] == p[2..] + q;
      UnescapeConcat(p[2..], q, special);
      ThenThen([Char(p[1])], UnescapeUnits(p[2..], special).value, UnescapeUnits(q, special));
    } else {
      assert (p + q)[0] == p[0];
      assert (p + q)[1..] == p[1..] + q;
      UnescapeConcat(p[1..], q, special);
      var u := if p[0] == '*' && special then Star else Char(p[0]);
      ThenThen([u], UnescapeUnits(p[1..], special).value, UnescapeUnits(q, special));
    }
  }

  /** Text with no backslash (and, in wildcard mode, no `*`) comes back unchanged. */
  lemma {:induction false} UnescapePlainText(text: string, special: bool)
    requires '\\' !in text
    requires special ==> '*' !in text
    ensures Unescaped(text, special) == Ok(text)
    decreases |text|
  {
    if text != [] {
      assert text[0] in text;
      assert forall c :: c in text[1..] ==> c in text;
      UnescapePlainText(text[1..], special);
      assert text == [text[0]] + text[1..];
    }
  }

  /** A backslash left over at the end of an otherwise well-formed token raises SearchError. */
  lemma TrailingBackslash(p: string, special: bool)
    requires UnescapeUnits(p, special).Ok?
    ensures Unescaped(p + "\\", special) == Err(SearchError(DanglingEscape))
  {
    UnescapeConcat(p, "\\", special);
  }

  /**
   * After a well-formed prefix, a backslash and `c` stand for `c` alone when `c` is escapable,
   * and raise SearchError otherwise; in particular `\*` is a literal star even in wildcard mode.
   */
  lemma EscapeSequence(p: string, c: char, q: string, special: bool)
    requires UnescapeUnits(p, special).Ok?
    ensures c in Escapable ==>
      UnescapeUnits(p + ['\\', c] + q, special) == Then(UnescapeUnits(p, special).value + [Char(c)], UnescapeUnits(q, special))
    ensures c !in Escapable ==>
      UnescapeUnits(p + ['\\', c] + q, special) == Err(SearchError(UnknownEscape))
  {
    assert p + ['\\', c] + q == p + (['\\', c] + q);
    UnescapeConcat(p, ['\\', c] + q, special);
    assert (['\\', c] + q)[2..] == q;
    ThenThen(UnescapeUnits(p, special).value, [Char(c)], UnescapeUnits(q, special));
  }

  /** After a well-formed prefix, a bare `*` is the wildcard in wildcard mode and a plain star otherwise. */
  lemma BareStar(p: string, q: string, special: bool)
    requires UnescapeUnits(p, special).Ok?
    ensures UnescapeUnits(p + "*" + q, special)
         == Then(UnescapeUnits(p, special).value + [if special then Star else Char('*')], UnescapeUnits(q, special))
  {
    assert p + "*" + q == p + ("*" + q);
    UnescapeConcat(p, "*" + q, special);
    assert ("*" + q)[1..] == q;
    ThenThen(UnescapeUnits(p, special).value, [if special then Star else Char('*')], UnescapeUnits(q, special));
  }
}
