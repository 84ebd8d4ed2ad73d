/**
 * The model-fitting requests: validation of a table content (arguments,
 * parameters, displacement), its length and evaluation, filling a table
 * from a model, the pre-checks of a parameter estimation and the filling of
 * the parameter slots left open for estimation.
 */
module Models {
  import opened Wrappers

  /** A model: its argument count, its parameter ids in order, and the formula itself. */
  datatype ModelCallable = ModelCallable(args: int, params: seq<int>, formula: seq<real> -> real)

  /** A request body. */
  datatype TableContent = TableContent(
    arg1: seq<real>, params: map<int, Option<real>>, displacement: seq<real>,
    arg2: Option<seq<real>>, model: ModelCallable)

  /** An HTTP error response: status code and detail message. */
  datatype HttpError = HttpError(status: int, detail: string)

  // ---------------------------------------------------------------------
  // Formatting a tuple of parameter ids as Python prints it

  function DigitChar(d: int): char
    requires 0 <= d < 10
  {
    ['0', '1', '2', '3', '4', '5', '6', '7', '8', '9'][d]
  }

  /** The decimal digits of a natural number. */
  function NatText(n: nat): (s: string)
    ensures |s| > 0
  {
    if n < 10 then [DigitChar(n)] else NatText(n / 10) + [DigitChar(n % 10)]
  }

  /** The decimal text of an integer. */
  function IntText(i: int): string
  {
    if i < 0 then "-" + NatText(-i) else NatText(i)
  }

  /** The items of a tuple separated by ", ". */
  function JoinInts(ps: seq<int>): string
  {
    if |ps| == 0 then "" else if |ps| == 1 then IntText(ps[0]) else IntText(ps[0]) + ", " + JoinInts(ps[1..])
  }

  /** Python's text of a tuple of integers: a one-element tuple keeps its trailing comma. */
  function TupleText(ps: seq<int>): (s: string)
    ensures |s| >= 2 && s[0] == '(' && s[|s| - 1] == ')'
  {
    "(" + JoinInts(ps) + (if |ps| == 1 then "," else "") + ")"
  }

  /** The tuples printed by the validation messages, e.g. `(50,)` and `(124, 125)`. */
  lemma TupleTextExamples()
    ensures TupleText([50]) == "(50,)"
    ensures TupleText([124, 125]) == "(124, 125)"
  {
    assert NatText(50) == NatText(5) + ['0'];
    assert NatText(124) == NatText(12) + ['4'];
    assert NatText(12) == NatText(1) + ['2'];
    assert NatText(125) == NatText(12) + ['5'];
    assert [124, 125][1..] == [125];
  }

  // ---------------------------------------------------------------------
  // Validation

  const DisplacementError: HttpError := HttpError(400, "Displacement array must have 3 elements")
  const EmptyArgumentsError: HttpError := HttpError(400, "Arguments cannot be empty")
  const ArgumentCountError: HttpError := HttpError(400, "Invalid number of arguments")

  function InvalidParametersError(m: ModelCallable): HttpError
  {
    HttpError(400, "Invalid parameters, " + TupleText(m.params))
  }

  /** The set of a model's parameter ids. */
  function ParamSet(ps: seq<int>): set<int>
  {
    set p | p in ps
  }

  /** The argument count the model requires is the one the request supplies. */
  predicate ArgumentsMatch(c: TableContent)
  {
    (c.arg2.None? && c.model.args == 1) || (c.arg2.Some? && |c.arg2.value| > 0 && c.model.args == 2)
  }

  /** What a validated request satisfies. */
  predicate Valid(c: TableContent)
  {
    && |c.arg1| > 0 && |c.displacement| == 3
    && (c.arg2.Some? ==> |c.arg2.value| > 0)
    && ParamSet(c.model.params) == c.params.Keys
    && ArgumentsMatch(c)
  }

  /**
   * The validators in the order the fields are declared (`arg1`,
   * `displacement`, `arg2`), then the root validator: the parameter set
   * first, the argument count second. A request is accepted exactly when it
   * is valid, and every rejection is a 400.
   */
  function Validate(c: TableContent): (r: Result<TableContent, HttpError>)
    ensures r.Ok? <==> Valid(c)
    ensures r.Ok? ==> r.value == c
    ensures r.Err? ==> r.error.status == 400
    ensures |c.arg1| == 0 ==> r == Err(EmptyArgumentsError)
    ensures |c.arg1| > 0 && |c.displacement| != 3 ==> r == Err(DisplacementError)
    ensures |c.arg1| > 0 && |c.displacement| == 3 && c.arg2.Some? && |c.arg2.value| == 0
            ==> r == Err(EmptyArgumentsError)
    ensures |c.arg1| > 0 && |c.displacement| == 3 && (c.arg2.Some? ==> |c.arg2.value| > 0)
            && ParamSet(c.model.params) != c.params.Keys
            ==> r == Err(InvalidParametersError(c.model))
    ensures |c.arg1| > 0 && |c.displacement| == 3 && (c.arg2.Some? ==> |c.arg2.value| > 0)
            && ParamSet(c.model.params) == c.params.Keys && !ArgumentsMatch(c)
            ==> r == Err(ArgumentCountError)
  {
    if |c.arg1| == 0 then Err(EmptyArgumentsError)
    else if |c.displacement| != 3 then Err(DisplacementError)
    else if c.arg2.Some? && |c.arg2.value| == 0 then Err(EmptyArgumentsError)
    else if ParamSet(c.model.params) != c.params.Keys then Err(InvalidParametersError(c.model))
    else if (c.arg2.None? && c.model.args == 1) || (c.arg2.Some? && |c.arg2.value| > 0 && c.model.args == 2) then Ok(c)
    else Err(ArgumentCountError)
  }

  /** The messages of the request tests: empty arguments, a short displacement, a wrong parameter set. */
  lemma ValidateMessages(c: TableContent)
    ensures |c.arg1| == 0 ==> Validate(c).error.detail == "Arguments cannot be empty"
    ensures |c.arg1| > 0 && |c.displacement| == 3 && c.arg2.Some? && |c.arg2.value| == 0
            ==> Validate(c).error.detail == "Arguments cannot be empty"
    ensures |c.arg1| > 0 && |c.displacement| != 3 ==> Validate(c).error.detail == "Displacement array must have 3 elements"
    ensures c.model.params == [50] && !Valid(c) && |c.arg1| > 0 && |c.displacement| == 3
            && (c.arg2.Some? ==> |c.arg2.value| > 0) && c.params.Keys != {50}
            ==> Validate(c).error.detail == "Invalid parameters, (50,)"
  {
    TupleTextExamples();
    if c.model.params == [50] {
      assert ParamSet(c.model.params) == {50};
    }
  }

  // ---------------------------------------------------------------------
  // The validated content

  /** `ordered_params`: the given parameter values, in the model's parameter order. */
  function OrderedParams(c: TableContent): (vs: seq<Option<real>>)
    requires forall i | 0 <= i < |c.model.params| :: c.model.params[i] in c.params
    ensures |vs| == |c.model.params|
    ensures forall i | 0 <= i < |vs| :: vs[i] == c.params[c.model.params[i]]
  {
    seq(|c.model.params|, i requires 0 <= i < |c.model.params| => c.params[c.model.params[i]])
  }

  /** `len(content)`: arg1 times arg2 entries with a second argument, arg1 entries otherwise. */
  function Len(c: TableContent): (n: nat)
    ensures c.arg2.Some? && |c.arg2.value| > 0 ==> n == |c.arg1| * |c.arg2.value|
    ensures c.arg2.None? || |c.arg2.value| == 0 ==> n == |c.arg1|
  {
    if c.arg2.Some? && |c.arg2.value| > 0 then |c.arg1| * |c.arg2.value| else |c.arg1|
  }

  /**
   * `content(*args)`: the first one or two arguments are displaced, the rest
   * passed on after them, and the entry displacement is added to the model.
   */
  function Call(c: TableContent, args: seq<real>): (r: real)
    requires |c.displacement| > 0
    ensures r == c.model.formula(args) + c.displacement[0]
  {
    var n := if c.arg2.Some? && |c.arg2.value| > 0 then 2 else 1;
    var k := if n <= |args| then n else |args|;
    assert args[..k] + args[k..] == args;
    c.model.formula(args[..k] + args[k..]) + c.displacement[0]
  }

  const NullParameterError: HttpError := HttpError(400, "Null parameter")

  /** The parameter values, all present. */
  function Values(vs: seq<Option<real>>): (r: seq<real>)
    requires forall i | 0 <= i < |vs| :: vs[i].Some?
    ensures |r| == |vs| && forall i | 0 <= i < |vs| :: r[i] == vs[i].value
  {
    seq(|vs|, i requires 0 <= i < |vs| => vs[i].value)
  }

  /**
   * `fill_by_model`: a null parameter is rejected; otherwise the model is
   * evaluated at every argument, with `arg2` as the outer loop.
   */
  function Fill(c: TableContent): (r: Result<seq<real>, HttpError>)
    requires Valid(c)
    ensures r.Err? <==> exists i | 0 <= i < |c.model.params| :: c.params[c.model.params[i]].None?
    ensures r.Err? ==> r.error == NullParameterError
    ensures r.Ok? ==> |r.value| == Len(c)
  {
    var vs := OrderedParams(c);
    if exists i | 0 <= i < |vs| :: vs[i].None? then Err(NullParameterError)
    else
      var ps := Values(vs);
      if c.arg2.Some? && |c.arg2.value| > 0 then
        var n1, n2 := |c.arg1|, |c.arg2.value|;
        Ok(seq(n1 * n2, k requires 0 <= k < n1 * n2 =>
          RowMajor(k, n1, n2);
          Call(c, [c.arg1[k % n1], c.arg2.value[k / n1]] + ps)))
      else
        Ok(seq(|c.arg1|, k requires 0 <= k < |c.arg1| => Call(c, [c.arg1[k]] + ps)))
  }

  /** An index below n1 * n2 splits into a row below n2 and a column below n1. */
  lemma RowMajor(k: int, n1: int, n2: int)
    requires 0 < n1 && 0 <= k < n1 * n2
    ensures 0 <= k % n1 < n1 && 0 <= k / n1 < n2
  {
    var q := k / n1;
    assert q * n1 <= k;
    if q >= n2 {
      MultiplyMonotone(n2, q, n1);
      assert false;
    }
  }

  lemma MultiplyMonotone(a: int, b: int, n: int)
    requires a <= b && 0 <= n
    ensures a * n <= b * n
  {
    assert b * n - a * n == (b - a) * n;
  }

  /** Row j, column i of a row-major grid is the entry at j * n1 + i. */
  lemma RowMajorIndex(i: int, j: int, n1: int)
    requires 0 <= i < n1 && 0 <= j
    ensures (j * n1 + i) % n1 == i && (j * n1 + i) / n1 == j
  {
    var k := j * n1 + i;
    var q, r := k / n1, k % n1;
    assert k == q * n1 + r;
    assert (j - q) * n1 == r - i;
    if j - q >= 1 {
      MultiplyMonotone(1, j - q, n1);
      assert false;
    } else if j - q <= -1 {
      MultiplyMonotone(j - q, -1, n1);
      assert false;
    }
  }

  /**
   * With two arguments the entry for `arg1[i]` and `arg2[j]` sits at
   * `j * |arg1| + i` and applies the model to both arguments followed by
   * the parameters in the model's order; with one argument entry i is the
   * model at `arg1[i]`.
   */
  lemma FillOrder(c: TableContent, i: nat, j: nat)
    requires Valid(c) && Fill(c).Ok? && i < |c.arg1|
    ensures c.arg2.Some? && j < |c.arg2.value| ==>
      var ps := Values(OrderedParams(c));
      j * |c.arg1| + i < |Fill(c).value|
      && Fill(c).value[j * |c.arg1| + i] == c.model.formula([c.arg1[i], c.arg2.value[j]] + ps) + c.displacement[0]
    ensures c.arg2.None? ==>
      Fill(c).value[i] == c.model.formula([c.arg1[i]] + Values(OrderedParams(c))) + c.displacement[0]
  {
    if c.arg2.Some? && j < |c.arg2.value| {
      var n1, n2 := |c.arg1|, |c.arg2.value|;
      var k := j * n1 + i;
      GridIndex(i, j, n1, n2);
      FillGridAt(c, k);
    }
  }

  /** The grid position of row j, column i is in range and splits back into j and i. */
  lemma GridIndex(i: int, j: int, n1: int, n2: int)
    requires 0 <= i < n1 && 0 <= j < n2
    ensures 0 <= j * n1 + i < n1 * n2
    ensures (j * n1 + i) % n1 == i && (j * n1 + i) / n1 == j
  {
    RowMajorIndex(i, j, n1);
    MultiplyMonotone(j + 1, n2, n1);
    assert (j + 1) * n1 == j * n1 + n1;
  }

  /** With two arguments, grid entry k is the model at column k % |arg1| and row k / |arg1|. */
  lemma FillGridAt(c: TableContent, k: int)
    requires Valid(c) && Fill(c).Ok? && c.arg2.Some? && |c.arg2.value| > 0
    requires 0 <= k < |c.arg1| * |c.arg2.value|
    ensures 0 <= k % |c.arg1| < |c.arg1| && 0 <= k / |c.arg1| < |c.arg2.value|
    ensures k < |Fill(c).value|
    ensures Fill(c).value[k]
         == Call(c, [c.arg1[k % |c.arg1|], c.arg2.value[k / |c.arg1|]] + Values(OrderedParams(c)))
  {
    RowMajor(k, |c.arg1|, |c.arg2.value|);
  }

  // ---------------------------------------------------------------------
  // Parameter estimation

  const EntryCountError: HttpError := HttpError(400, "Number of entries does not match arguments")
  const NothingToEstimateError: HttpError := HttpError(400, "No parameter to estimate")

  /** The checks `estimate_parameter` makes before fitting. */
  function EstimatePrecheck(c: TableContent, entries: seq<real>): (r: Option<HttpError>)
    ensures r.None? <==> Len(c) == |entries| && exists p | p in c.params :: c.params[p].None?
    ensures Len(c) != |entries| ==> r == Some(EntryCountError)
    ensures Len(c) == |entries| && (forall p | p in c.params :: c.params[p].Some?)
            ==> r == Some(NothingToEstimateError) && r.value.detail == "No parameter to estimate"
  {
    if Len(c) != |entries| then Some(EntryCountError)
    else if forall p | p in c.params :: c.params[p].Some? then Some(NothingToEstimateError)
    else None
  }

  /** The number of open (None) slots. */
  function OpenCount(slots: seq<Option<real>>): (n: nat)
    ensures n <= |slots|
    decreases |slots|
  {
    if |slots| == 0 then 0
    else OpenCount(slots[..|slots| - 1]) + (if slots[|slots| - 1].None? then 1 else 0)
  }

  /** A longer prefix has at least as many open slots. */
  lemma {:induction false} OpenCountPrefix(slots: seq<Option<real>>, i: nat, j: nat)
    requires i <= j <= |slots|
    ensures OpenCount(slots[..i]) <= OpenCount(slots[..j])
    decreases j - i
  {
    if i < j {
      OpenCountPrefix(slots, i, j - 1);
      assert slots[..j][..j - 1] == slots[..j - 1];
    }
  }

  /**
   * `params(parameters)`: given values are kept and the n-th open slot
   * takes the n-th fitted value; None when the fitted values run out
   * (StopIteration).
   */
  function Filled(slots: seq<Option<real>>, fitted: seq<real>): (r: Option<seq<real>>)
    ensures r.Some? <==> OpenCount(slots) <= |fitted|
    ensures r.Some? ==> |r.value| == |slots|
  {
    if OpenCount(slots) > |fitted| then None
    else Some(seq(|slots|, i requires 0 <= i < |slots| => SlotValue(slots, fitted, i)))
  }

  /** The value slot i receives. */
  function SlotValue(slots: seq<Option<real>>, fitted: seq<real>, i: nat): real
    requires i < |slots| && OpenCount(slots) <= |fitted|
  {
    if slots[i].Some? then slots[i].value
    else
      OpenSlotIndex(slots, i);
      fitted[OpenCount(slots[..i])]
  }

  /** An open slot's rank among the open slots is below their number. */
  lemma OpenSlotIndex(slots: seq<Option<real>>, i: nat)
    requires i < |slots| && slots[i].None?
    ensures OpenCount(slots[..i]) < OpenCount(slots)
  {
    assert slots[..i + 1][..i] == slots[..i];
    OpenCountPrefix(slots, i + 1, |slots|);
    assert slots[..|slots|] == slots;
  }

  /** The values a complete pass of the slot filler produced are the filled slots. */
  lemma FilledFromPass(slots: seq<Option<real>>, fitted: seq<real>, out: seq<real>)
    requires OpenCount(slots) <= |fitted| && |out| == |slots|
    requires forall j | 0 <= j < |slots| && slots[j].Some? :: out[j] == slots[j].value
    requires forall j | 0 <= j < |slots| && slots[j].None? ::
      OpenCount(slots[..j]) < |fitted| && out[j] == fitted[OpenCount(slots[..j])]
    ensures Filled(slots, fitted) == Some(out)
  {
    var filled := Filled(slots, fitted).value;
    forall j | 0 <= j < |slots|
      ensures out[j] == filled[j]
    {
      assert filled[j] == SlotValue(slots, fitted, j);
    }
    assert out == filled;
  }

  /** An open slot met once every fitted value is used exceeds the supply. */
  lemma ExhaustedFitted(slots: seq<Option<real>>, i: nat)
    requires i < |slots| && slots[i].None?
    ensures OpenCount(slots) > OpenCount(slots[..i])
  {
    OpenSlotIndex(slots, i);
  }

  /** The slot filler consuming the fitted values with an iterator. */
  method FillSlots(slots: seq<Option<real>>, fitted: seq<real>) returns (r: Option<seq<real>>)
    ensures r == Filled(slots, fitted)
  {
    var next := 0;
    var out: seq<real> := [];
    for i := 0 to |slots|
      invariant next == OpenCount(slots[..i]) && next <= |fitted|
      invariant |out| == i
      invariant forall j | 0 <= j < i && slots[j].Some? :: out[j] == slots[j].value
      invariant forall j | 0 <= j < i && slots[j].None? ::
        OpenCount(slots[..j]) < next && out[j] == fitted[OpenCount(slots[..j])]
    {
      assert slots[..i + 1][..i] == slots[..i];
      if slots[i].Some? {
        out := out + [slots[i].value];
      } else {
        if next == |fitted| {
          ExhaustedFitted(slots, i);
          return None;
        }
        out := out + [fitted[next]];
        next := next + 1;
      }
    }
    assert slots[..|slots|] == slots;
    FilledFromPass(slots, fitted, out);
    r := Some(out);
  }

  /** `keys`: the parameter ids whose slot is open, in the model's order. */
  function OpenKeys(params: seq<int>, slots: seq<Option<real>>): (ks: seq<int>)
    requires |params| == |slots|
    ensures |ks| == OpenCount(slots)
    decreases |slots|
  {
    if |slots| == 0 then []
    else
      OpenKeys(params[..|params| - 1], slots[..|slots| - 1])
      + (if slots[|slots| - 1].None? then [params[|params| - 1]] else [])
  }

  /**
   * The n-th key is the parameter of the n-th open slot, so pairing the keys
   * with the fitted values names each value after the slot it filled.
   */
  lemma {:induction false} OpenKeysMatchSlots(params: seq<int>, slots: seq<Option<real>>, i: nat)
    requires |params| == |slots| && i < |slots| && slots[i].None?
    ensures OpenCount(slots[..i]) < |OpenKeys(params, slots)|
    ensures OpenKeys(params, slots)[OpenCount(slots[..i])] == params[i]
    decreases |slots|
  {
    var n := |slots|;
    OpenSlotIndex(slots, i);
    if i < n - 1 {
      var p', s' := params[..n - 1], slots[..n - 1];
      assert s'[..i] == slots[..i];
      assert s'[i] == slots[i];
      OpenKeysMatchSlots(p', s', i);
    } else {
      assert slots[..n - 1] == slots[..i];
    }
  }
}
