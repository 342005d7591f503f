/**
 * `Tapper.get_balance` and `Tapper.verify_task`: two loops over the values
 * of a JSON object returned by the backend. A response is the sequence of
 * the object's values in key order, or `None` when the request, its status
 * check or its JSON decoding raised (the method then logs, sleeps 3 s and
 * returns Python's `None`).
 */
module Responses {
  import opened Wrappers

  /** A JSON value as Python decodes it. */
  datatype Json =
    | JInt(i: int)       // Python `int`
    | JBool(b: bool)     // Python `bool`, a subclass of `int`
    | JFloat(f: real)    // Python `float`
    | JStr(s: string)
    | JNull
    | JArray(items: seq<Json>)
    | JObject(fields: seq<(string, Json)>)

  /** `isinstance(value, int)`: true for integers and for booleans. */
  predicate IsInt(v: Json)
  {
    v.JInt? || v.JBool?
  }

  /** What `balance += value` adds for an `int` value (`True` is 1, `False` is 0). */
  function IntValue(v: Json): int
    requires IsInt(v)
  {
    match v
    case JInt(i) => i
    case JBool(b) => if b then 1 else 0
  }

  /** The sum of the `int`-valued entries, in order. */
  function SumOfInts(values: seq<Json>): int
  {
    if values == [] then 0
    else
      var last := values[|values| - 1];
      SumOfInts(values[..|values| - 1]) + (if IsInt(last) then IntValue(last) else 0)
  }

  /** `get_balance`: the sum of the integer-valued fields of `/user/balance`. */
  method GetBalance(response: Option<seq<Json>>) returns (balance: Option<int>)
    ensures response.None? ==> balance.None?
    ensures response.Some? ==> balance == Some(SumOfInts(response.value))
  {
    if response.None? {
      return None;
    }
    var values := response.value;
    var total := 0;
    var i := 0;
    while i < |values|
      invariant 0 <= i <= |values|
      invariant total == SumOfInts(values[..i])
    {
      assert values[..i + 1][..i] == values[..i];
      var value := values[i];
      if IsInt(value) {
        total := total + IntValue(value);
      }
      i := i + 1;
    }
    assert values[..|values|] == values;
    return Some(total);
  }

  /** The balance of two groups of fields is the sum of their balances. */
  lemma {:induction false} SumOfIntsAppend(a: seq<Json>, b: seq<Json>)
    ensures SumOfInts(a + b) == SumOfInts(a) + SumOfInts(b)
  {
    if b != [] {
      assert (a + b)[..|a + b| - 1] == a + b[..|b| - 1];
      SumOfIntsAppend(a, b[..|b| - 1]);
    } else {
      assert a + b == a;
    }
  }

  /** Fields that are not integers (strings, floats, `null`, nested values) add nothing. */
  lemma {:induction false} NonIntegersIgnored(values: seq<Json>)
    requires forall k :: 0 <= k < |values| ==> !IsInt(values[k])
    ensures SumOfInts(values) == 0
  {
    if values != [] {
      NonIntegersIgnored(values[..|values| - 1]);
    }
  }

  /** The balance only depends on the integer fields: removing one other field leaves it unchanged. */
  lemma DropNonInteger(a: seq<Json>, v: Json, b: seq<Json>)
    requires !IsInt(v)
    ensures SumOfInts(a + [v] + b) == SumOfInts(a + b)
  {
    SumOfIntsAppend(a + [v], b);
    SumOfIntsAppend(a, b);
    assert (a + [v])[..|a|] == a;
  }

  /** `{food: 10, gems: "x", wood: 5}` has balance 15. */
  lemma BalanceExample()
    ensures SumOfInts([JInt(10), JStr("x"), JInt(5)]) == 15
  {
    var vs := [JInt(10), JStr("x"), JInt(5)];
    assert vs[..2][..1] == [JInt(10)];
    assert [JInt(10)][..0] == [];
  }

  /** The literal the backend uses to report a completed task. */
  const SuccessMarker: string := "success"

  /**
   * `verify_task`: `Some(true)` when some value of the `/tasks/claim`
   * response equals the string `'success'`, `Some(false)` when none does,
   * `None` when the request failed.
   */
  method VerifyTask(response: Option<seq<Json>>) returns (verified: Option<bool>)
    ensures response.None? ==> verified.None?
    ensures response.Some? ==> verified == Some(JStr(SuccessMarker) in response.value)
  {
    if response.None? {
      return None;
    }
    var values := response.value;
    var i := 0;
    while i < |values|
      invariant 0 <= i <= |values|
      invariant JStr(SuccessMarker) !in values[..i]
    {
      if values[i] == JStr(SuccessMarker) {
        return Some(true);
      }
      assert values[..i + 1] == values[..i] + [values[i]];
      i := i + 1;
    }
    assert values[..|values|] == values;
    return Some(false);
  }
}
