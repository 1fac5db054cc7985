/** The JSON-like JavaScript values that arrive as request parameters and results,
    with the two value operations the dispatcher applies to them. */
module Js {
  import opened Wrappers
  import Text

  datatype Value =
    | Undefined
    | Null
    | Bool(b: bool)
    | Num(n: int)
    | Str(s: string)
    | Arr(items: seq<Value>)
    | Obj(fields: map<string, Value>)

  /** Message of the TypeError raised when indexing `null` or `undefined`; the host
      runtime's exact wording is not modelled. */
  const PropertyOfNullish := "cannot read properties of null or undefined"

  /** `v[i]`: indexing reads an array element, a string's code unit or an object's
      property named by the decimal index; any other value has no such property,
      and `null`/`undefined` throw. */
  function Index(v: Value, i: nat): (r: Result<Value, string>)
    ensures r.Err? <==> v.Undefined? || v.Null?
    ensures v.Arr? && i < |v.items| ==> r == Ok(v.items[i])
    ensures v.Arr? && i >= |v.items| ==> r == Ok(Undefined)
  {
    match v
    case Undefined => Err(PropertyOfNullish)
    case Null => Err(PropertyOfNullish)
    case Arr(xs) => Ok(if i < |xs| then xs[i] else Undefined)
    case Str(s) => Ok(if i < |s| then Str([s[i]]) else Undefined)
    case Obj(m) => Ok(if Text.NatToString(i) in m then m[Text.NatToString(i)] else Undefined)
    case _ => Ok(Undefined)
  }

  /** The own enumerable properties of an array or string, keyed by decimal index. */
  function IndexedEntries(xs: seq<Value>): (m: map<string, Value>)
    ensures forall k :: k in m ==> Text.IsDigits(k) && Text.DecimalValue(k) < |xs|
    ensures forall i :: 0 <= i < |xs| ==> Text.NatToString(i) in m && m[Text.NatToString(i)] == xs[i]
    decreases |xs|
  {
    if |xs| == 0 then map[]
    else
      var m := IndexedEntries(xs[..|xs| - 1]);
      var k := Text.NatToString(|xs| - 1);
      assert forall i :: 0 <= i < |xs| - 1 ==> Text.NatToString(i) != k by {
        forall i | 0 <= i < |xs| - 1 ensures Text.NatToString(i) != k {
          assert Text.DecimalValue(Text.NatToString(i)) == i;
        }
      }
      m[k := xs[|xs| - 1]]
  }

  /** `{ ...v }`: the object an object spread of `v` produces. */
  function Spread(v: Value): map<string, Value> {
    match v
    case Obj(m) => m
    case Arr(xs) => IndexedEntries(xs)
    case Str(s) => IndexedEntries(seq(|s|, i requires 0 <= i < |s| => Str([s[i]])))
    case _ => map[]
  }

  /** `undefined` or `null`: the values `??` replaces and the persistence library
      sends as SQL NULL. */
  predicate Nullish(v: Value) {
    v.Undefined? || v.Null?
  }

  /** The optional column value a possibly-`undefined` JavaScript value becomes. */
  function Defined(v: Value): (r: Option<Value>)
    ensures r.None? <==> v.Undefined?
    ensures r.Some? ==> r.value == v
  {
    if v.Undefined? then None else Some(v)
  }
}
