/** The instance context: a string-keyed map of the dynamic values Jackson
    produces from JSON, and the text `Object.toString()` gives for each of
    them, which is what the parameter validator inspects. */
module Values {

  /** A value held in the context or submitted as a parameter. JSON objects
      keep their document order, as Jackson's LinkedHashMap does. */
  datatype Value =
    | Null
    | Bool(b: bool)
    | Int(n: int)           // Integer, Long or BigInteger
    | Dbl(text: string)     // a Double, held as the text Double.toString gives it
    | Str(s: string)
    | List(items: seq<Value>)
    | Obj(fields: seq<(string, Value)>)

  type Context = map<string, Value>

  /** `Map.get`: null when the key is absent. */
  function Get(ctx: Context, key: string): (v: Value)
    ensures key !in ctx ==> v == Null
    ensures key in ctx ==> v == ctx[key]
  {
    if key in ctx then ctx[key] else Null
  }

  function DigitChar(d: nat): (c: char)
    requires d < 10
    ensures '0' <= c <= '9'
  {
    "0123456789"[d]
  }

  /** Decimal text of a natural number, most significant digit first. */
  function NatText(n: nat): (s: string)
    ensures |s| > 0
    ensures forall i :: 0 <= i < |s| ==> '0' <= s[i] <= '9'
  {
    if n < 10 then [DigitChar(n)] else NatText(n / 10) + [DigitChar(n % 10)]
  }

  /** `Integer.toString` / `Long.toString`: a minus sign for negatives. */
  function IntText(n: int): (s: string)
    ensures |s| > 0
    ensures (s[0] == '-') <==> n < 0
  {
    if n < 0 then "-" + NatText(-n) else NatText(n)
  }

  /** `Object.toString()` of a value: collections render as `[a, b]`,
      maps as `{k=v, k2=v2}`, null elements as `null`. */
  function ToString(v: Value): string
    decreases v, 1
  {
    match v
    case Null => "null"
    case Bool(b) => if b then "true" else "false"
    case Int(n) => IntText(n)
    case Dbl(t) => t
    case Str(s) => s
    case List(items) => "[" + ItemsString(v, 0) + "]"
    case Obj(fields) => "{" + FieldsString(v, 0) + "}"
  }

  /** Only a string or a number text can render as the empty text: null,
      booleans, integers, lists and objects never do. */
  lemma ToStringEmpty(v: Value)
    ensures ToString(v) == "" <==> v == Str("") || v == Dbl("")
  {
    if v.List? || v.Obj? {
      assert ToString(v)[0] in "[{";
    }
  }

  function ItemsString(v: Value, i: nat): string
    requires v.List? && i <= |v.items|
    decreases v, 0, |v.items| - i
  {
    if i == |v.items| then ""
    else
      assert v.items[i] in v.items;
      (if i == 0 then "" else ", ") + ToString(v.items[i]) + ItemsString(v, i + 1)
  }

  function FieldsString(v: Value, i: nat): string
    requires v.Obj? && i <= |v.fields|
    decreases v, 0, |v.fields| - i
  {
    if i == |v.fields| then ""
    else
      assert v.fields[i] in v.fields;
      (if i == 0 then "" else ", ") + v.fields[i].0 + "=" + ToString(v.fields[i].1)
      + FieldsString(v, i + 1)
  }

  /** The `HashMap` the engine builds for one execution and hands to the
      handlers by reference: they update it in place. */
  class ContextMap {
    var entries: Context

    constructor (init: Context)
      ensures entries == init
    {
      entries := init;
    }

    /** `Map.put`: binds `key`, every other key keeps its value. */
    method Put(key: string, v: Value)
      modifies this
      ensures entries == old(entries)[key := v]
    {
      entries := entries[key := v];
    }

    /** `Map.putAll`: every key of `m` takes its value from `m`, the other
        keys keep theirs, nothing is removed. */
    method PutAll(m: Context)
      modifies this
      ensures entries.Keys == old(entries).Keys + m.Keys
      ensures forall k :: k in m ==> entries[k] == m[k]
      ensures forall k :: k in old(entries) && k !in m ==> entries[k] == old(entries)[k]
    {
      entries := entries + m;
    }
  }
}
