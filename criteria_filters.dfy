/**
 * Criteria to column predicates (`apply_num_criterion_to_column`, `create_num_filter`,
 * `apply_str_criterion_to_column`, `create_str_filter` in server/szurubooru/search/configs/util.py).
 *
 * SQLAlchemy column expressions are modelled as small predicate trees over the value of the one
 * column a filter was created for; `Eval` says which column values a predicate admits. A query is
 * the conjunction of the predicates its `filter` calls added. SQL `ilike` stays abstract: string
 * predicates are evaluated against a caller-supplied matching relation `like(value, pattern)`.
 */
module CriteriaFilters {
  import opened Results
  import Transformers

  /** The three kinds of parsed criterion. */
  datatype Criterion =
    | Plain(value: string)
    | Array(values: seq<string>)
    | Ranged(minValue: Option<string>, maxValue: Option<string>)

  /** Python truthiness of an optional string: present and non-empty. */
  predicate Truthy(v: Option<string>)
  {
    v.Some? && v.value != ""
  }

  /** The source asserts that a ranged criterion has at least one (truthy) end. */
  predicate WellFormed(c: Criterion)
  {
    c.Ranged? ==> Truthy(c.minValue) || Truthy(c.maxValue)
  }

  /** A numeric column predicate. */
  datatype NumExpr =
    | Equals(n: int)
    | OneOf(ns: seq<int>)
    | Between(low: int, high: int)
    | AtLeast(low: int)
    | AtMost(high: int)
    | NotNum(inner: NumExpr)

  predicate Eval(e: NumExpr, x: int)
  {
    match e
    case Equals(n) => x == n
    case OneOf(ns) => x in ns
    case Between(low, high) => low <= x <= high
    case AtLeast(low) => low <= x
    case AtMost(high) => x <= high
    case NotNum(inner) => !Eval(inner, x)
  }

  /** A string column predicate. */
  datatype StrExpr =
    | ILike(pattern: string)
    | False
    | Or(left: StrExpr, right: StrExpr)
    | NotStr(inner: StrExpr)

  predicate EvalStr(e: StrExpr, x: string, like: (string, string) -> bool)
  {
    match e
    case ILike(p) => like(x, p)
    case False => false
    case Or(l, r) => EvalStr(l, x, like) || EvalStr(r, x, like)
    case NotStr(inner) => !EvalStr(inner, x, like)
  }

  /** A query with filters applied: a row passes when every added predicate holds. */
  predicate AllHold(query: seq<NumExpr>, x: int)
  {
    forall i :: 0 <= i < |query| ==> Eval(query[i], x)
  }

  predicate AllHoldStr(query: seq<StrExpr>, x: string, like: (string, string) -> bool)
  {
    forall i :: 0 <= i < |query| ==> EvalStr(query[i], x, like)
  }

  // ---------------------------------------------------------------------------------------------
  // Transforming criterion values

  /** Transforming values one after the other, stopping at the first failure. */
  function TransformAll<T>(vs: seq<string>, t: string -> Result<T, Failure>): (r: Result<seq<T>, Failure>)
    ensures r.Ok? <==> forall i :: 0 <= i < |vs| ==> t(vs[i]).Ok?
    ensures r.Ok? ==> |r.value| == |vs| && forall i :: 0 <= i < |vs| ==> r.value[i] == t(vs[i]).value
    ensures r.Err? ==> exists i :: 0 <= i < |vs| && t(vs[i]) == Err(r.error) && forall j :: 0 <= j < i ==> t(vs[j]).Ok?
    decreases |vs|
  {
    if vs == [] then Ok([])
    else
      match TransformAll(vs[..|vs| - 1], t)
      case Err(e) => Err(e)
      case Ok(ps) =>
        match t(vs[|vs| - 1])
        case Err(e) => Err(e)
        case Ok(p) => Ok(ps + [p])
  }

  lemma {:induction false} TransformAllPrefixFailure<T>(vs: seq<string>, k: nat, t: string -> Result<T, Failure>)
    requires k <= |vs| && TransformAll(vs[..k], t).Err?
    ensures TransformAll(vs, t) == TransformAll(vs[..k], t)
    decreases |vs|
  {
    if k < |vs| {
      assert vs[..|vs| - 1][..k] == vs[..k];
      TransformAllPrefixFailure(vs[..|vs| - 1], k, t);
    } else {
      assert vs[..k] == vs;
    }
  }

  /** Every value the criterion's kind transforms does transform. */
  predicate Transforms<T>(c: Criterion, t: string -> Result<T, Failure>)
  {
    match c
    case Plain(v) => t(v).Ok?
    case Array(vs) => forall i :: 0 <= i < |vs| ==> t(vs[i]).Ok?
    case Ranged(lo, hi) => (Truthy(lo) ==> t(lo.value).Ok?) && (Truthy(hi) ==> t(hi.value).Ok?)
  }

  /** Python's ValueError from a numeric transformer is reported as SearchError. */
  function AsSearchError(f: Failure): Failure
  {
    if f.ValueError? then SearchError(NotANumber) else f
  }

  // ---------------------------------------------------------------------------------------------
  // Numeric criteria

  /** What a numeric criterion means for a column value, independent of how it is built. */
  predicate Satisfies(c: Criterion, t: string -> Result<int, Failure>, x: int)
    requires Transforms(c, t)
  {
    match c
    case Plain(v) => x == t(v).value
    case Array(vs) => exists i :: 0 <= i < |vs| && x == t(vs[i]).value
    case Ranged(lo, hi) => (Truthy(lo) ==> t(lo.value).value <= x) && (Truthy(hi) ==> x <= t(hi.value).value)
  }

  /**
   * `apply_num_criterion_to_column`: equality for a plain value, membership for an array, and for
   * a range `between`, `>=` or `<=` according to which ends are present.
   */
  function ApplyNumCriterion(c: Criterion, t: string -> Result<int, Failure>): (r: Result<NumExpr, Failure>)
    requires WellFormed(c)
    ensures r.Ok? <==> Transforms(c, t)
    ensures r.Err? ==> r.error.SearchError?
    ensures r.Ok? ==> forall x :: Eval(r.value, x) <==> Satisfies(c, t, x)
  {
    match c
    case Plain(v) =>
      (match t(v)
       case Err(e) => Err(AsSearchError(e))
       case Ok(n) => Ok(Equals(n)))
    case Array(vs) =>
      (match TransformAll(vs, t)
       case Err(e) => Err(AsSearchError(e))
       case Ok(ns) =>
         assert forall x :: x in ns <==> exists i :: 0 <= i < |vs| && x == t(vs[i]).value by {
           forall x ensures x in ns ==> exists i :: 0 <= i < |vs| && x == t(vs[i]).value {
             if x in ns {
               var i :| 0 <= i < |ns| && ns[i] == x;
               assert x == t(vs[i]).value;
             }
           }
         }
         Ok(OneOf(ns)))
    case Ranged(lo, hi) =>
      if Truthy(lo) && Truthy(hi) then
        (match t(lo.value)
         case Err(e) => Err(AsSearchError(e))
         case Ok(low) =>
           match t(hi.value)
           case Err(e) => Err(AsSearchError(e))
           case Ok(high) => Ok(Between(low, high)))
      else if Truthy(lo) then
        (match t(lo.value)
         case Err(e) => Err(AsSearchError(e))
         case Ok(low) => Ok(AtLeast(low)))
      else
        (match t(hi.value)
         case Err(e) => Err(AsSearchError(e))
         case Ok(high) => Ok(AtMost(high)))
  }

  /**
   * The filter `create_num_filter` builds: the criterion's predicate, complemented when negated,
   * added to the query.
   */
  function NumFilter(t: string -> Result<int, Failure>, query: seq<NumExpr>, c: Criterion, negated: bool)
    : (r: Result<seq<NumExpr>, Failure>)
    requires WellFormed(c)
    ensures r.Ok? <==> Transforms(c, t)
    ensures r.Err? ==> r.error.SearchError?
    ensures r.Ok? ==> |r.value| == |query| + 1 && r.value[..|query|] == query
    ensures r.Ok? ==> forall x :: AllHold(r.value, x) <==> AllHold(query, x) && (Satisfies(c, t, x) != negated)
  {
    match ApplyNumCriterion(c, t)
    case Err(e) => Err(e)
    case Ok(expr) =>
      var q := query + [if negated then NotNum(expr) else expr];
      assert forall x :: AllHold(q, x) <==> AllHold(query, x) && Eval(q[|query|], x) by {
        forall x ensures AllHold(q, x) <==> AllHold(query, x) && Eval(q[|query|], x) {
          if AllHold(query, x) && Eval(q[|query|], x) {
            forall i | 0 <= i < |q| ensures Eval(q[i], x) {
              if i < |query| { assert q[i] == query[i]; }
            }
          }
          if AllHold(q, x) {
            forall i | 0 <= i < |query| ensures Eval(query[i], x) {
              assert q[i] == query[i];
            }
          }
        }
      }
      Ok(q)
  }

  /** With the default integer transformer, an empty maximum is no bound at all. */
  lemma RangeWithEmptyMaximumIsAtLeast()
    ensures ApplyNumCriterion(Ranged(Some("5"), Some("")), Transformers.IntegerTransformer) == Ok(AtLeast(5))
  {
    Transformers.IntegerTransformerRoundTrip(5);
    assert Transformers.DecimalText(5) == "5";
  }

  // ---------------------------------------------------------------------------------------------
  // String criteria

  /** `false | ilike(p0) | ilike(p1) | ...`, built left to right. */
  function OrOfLikes(patterns: seq<string>): StrExpr
  {
    if patterns == [] then False
    else Or(OrOfLikes(patterns[..|patterns| - 1]), ILike(patterns[|patterns| - 1]))
  }

  /** The disjunction matches exactly the values that match one of the patterns; none for no patterns. */
  lemma {:induction false} OrOfLikesMatches(patterns: seq<string>, x: string, like: (string, string) -> bool)
    ensures EvalStr(OrOfLikes(patterns), x, like) <==> exists i :: 0 <= i < |patterns| && like(x, patterns[i])
    decreases |patterns|
  {
    if patterns != [] {
      var init := patterns[..|patterns| - 1];
      OrOfLikesMatches(init, x, like);
      assert forall i :: 0 <= i < |init| ==> init[i] == patterns[i];
      var last := patterns[|patterns| - 1];
      assert OrOfLikes(patterns) == Or(OrOfLikes(init), ILike(last));
      assert EvalStr(OrOfLikes(patterns), x, like) <==> EvalStr(OrOfLikes(init), x, like) || like(x, last);
      if EvalStr(OrOfLikes(patterns), x, like) {
        if EvalStr(OrOfLikes(init), x, like) {
          var i :| 0 <= i < |init| && like(x, init[i]);
          assert like(x, patterns[i]);
        } else {
          assert like(x, patterns[|patterns| - 1]);
        }
      } else {
        forall i | 0 <= i < |patterns| ensures !like(x, patterns[i]) {
          if i < |init| { assert patterns[i] == init[i]; }
        }
      }
    }
  }

  /** What a plain or array string criterion means for a column value. */
  predicate StrSatisfies(c: Criterion, t: string -> Result<string, Failure>, x: string, like: (string, string) -> bool)
    requires !c.Ranged? && Transforms(c, t)
  {
    match c
    case Plain(v) => like(x, t(v).value)
    case Array(vs) => exists i :: 0 <= i < |vs| && like(x, t(vs[i]).value)
  }

  /**
   * `apply_str_criterion_to_column`: `ilike` for a plain value; for an array the loop ORs one
   * `ilike` per value onto `false`; a ranged criterion raises SearchError.
   */
  method ApplyStrCriterion(c: Criterion, t: string -> Result<string, Failure>) returns (r: Result<StrExpr, Failure>)
    ensures c.Ranged? ==> r == Err(SearchError(RangeNotAllowed))
    ensures !c.Ranged? ==> (r.Ok? <==> Transforms(c, t))
    ensures c.Plain? && r.Err? ==> r.error == t(c.value).error
    ensures c.Array? && r.Err? ==> r.error == TransformAll(c.values, t).error
    ensures c.Plain? && r.Ok? ==> r.value == ILike(t(c.value).value)
    ensures c.Array? && r.Ok? ==> r.value == OrOfLikes(TransformAll(c.values, t).value)
  {
    match c
    case Ranged(_, _) =>
      return Err(SearchError(RangeNotAllowed));
    case Plain(v) =>
      var p := t(v);
      if p.Err? {
        return Err(p.error);
      }
      return Ok(ILike(p.value));
    case Array(vs) =>
      var expr := False;
      ghost var patterns: seq<string> := [];
      for i := 0 to |vs|
        invariant TransformAll(vs[..i], t) == Ok(patterns)
        invariant expr == OrOfLikes(patterns)
      {
        assert vs[..i + 1][..i] == vs[..i];
        var p := t(vs[i]);
        if p.Err? {
          TransformAllPrefixFailure(vs, i + 1, t);
          return Err(p.error);
        }
        expr := Or(expr, ILike(p.value));
        patterns := patterns + [p.value];
      }
      assert vs[..|vs|] == vs;
      return Ok(expr);
  }

  /**
   * The filter `create_str_filter` builds: the criterion's predicate, complemented when negated,
   * added to the query; a ranged criterion is refused.
   */
  method StrFilter(t: string -> Result<string, Failure>, query: seq<StrExpr>, c: Criterion, negated: bool)
    returns (r: Result<seq<StrExpr>, Failure>)
    ensures c.Ranged? ==> r == Err(SearchError(RangeNotAllowed))
    ensures !c.Ranged? ==> (r.Ok? <==> Transforms(c, t))
    ensures r.Ok? ==> |r.value| == |query| + 1 && r.value[..|query|] == query
    ensures r.Ok? ==> forall x, like :: AllHoldStr(r.value, x, like) <==>
                        AllHoldStr(query, x, like) && (StrSatisfies(c, t, x, like) != negated)
  {
    var applied := ApplyStrCriterion(c, t);
    if applied.Err? {
      return Err(applied.error);
    }
    var expr := applied.value;
    forall x, like ensures EvalStr(expr, x, like) <==> StrSatisfies(c, t, x, like) {
      if c.Array? {
        var ps := TransformAll(c.values, t).value;
        OrOfLikesMatches(ps, x, like);
        if EvalStr(expr, x, like) {
          var i :| 0 <= i < |ps| && like(x, ps[i]);
          assert like(x, t(c.values[i]).value);
        }
      }
    }
    var q := query + [if negated then NotStr(expr) else expr];
    forall x, like ensures AllHoldStr(q, x, like) <==> AllHoldStr(query, x, like) && (StrSatisfies(c, t, x, like) != negated) {
      if AllHoldStr(query, x, like) && (StrSatisfies(c, t, x, like) != negated) {
        forall i | 0 <= i < |q| ensures EvalStr(q[i], x, like) {
          if i < |query| { assert q[i] == query[i]; }
        }
      }
      if AllHoldStr(q, x, like) {
        forall i | 0 <= i < |query| ensures EvalStr(query[i], x, like) {
          assert q[i] == query[i];
        }
        assert EvalStr(q[|query|], x, like);
      }
    }
    return Ok(q);
  }
}
