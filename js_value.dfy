/**
 * The JavaScript values the matrix evaluator handles: what `JSON.parse` can
 * return, `Object.entries` of such a value, property lookup `v[key]`, and
 * the `Number(...)` and `String(...)` coercions. `JSON.parse`, the
 * string-to-number grammar and the number-to-string rendering are engine
 * routines; they are the fields of a `Host`, and every property of the model
 * holds for every host.
 */
module JsValue {
  import opened Wrappers

  /** An IEEE double as far as the evaluator observes it: finite, NaN or an infinity. */
  datatype Num = Finite(value: real) | NaN | Infinity | NegativeInfinity {
    /** `Number.isFinite(n) && n > 0`, the test a percentage must pass. */
    predicate IsPositiveFinite() {
      Finite? && value > 0.0
    }
  }

  /**
   * A value produced by `JSON.parse`. Object properties are listed in
   * `Object.entries` order, and their names are distinct: for a name repeated
   * in the text, `JSON.parse` keeps the first position and the last value.
   */
  datatype Json =
    | JNull
    | JBool(b: bool)
    | JNumber(n: Num)
    | JString(s: string)
    | JArray(items: seq<Json>)
    | JObject(props: seq<(string, Json)>)
  {
    /** `!!v && typeof v === "object"`: an object or an array (`null` is falsy). */
    predicate IsObjectLike() {
      JObject? || JArray?
    }
  }

  datatype Host = Host(
    parseJson: string -> Option<Json>,  // JSON.parse; None where it throws
    stringToNumber: string -> Num,      // Number(s) for a string s
    numberToString: Num -> string)      // String(n), also `${n}` in a template

  function DigitChar(d: nat): (c: char)
    requires d < 10
    ensures '0' <= c <= '9'
  {
    "0123456789"[d]
  }

  /** The canonical decimal name of an array index: digits only, no leading zero. */
  function NatToString(n: nat): (r: string)
    ensures r != []
    ensures forall i :: 0 <= i < |r| ==> '0' <= r[i] <= '9'
    ensures |r| > 1 ==> r[0] != '0'
  {
    if n < 10 then [DigitChar(n)] else NatToString(n / 10) + [DigitChar(n % 10)]
  }

  /** The number a string of decimal digits denotes, most significant digit first. */
  function DigitsValue(s: string): nat
    requires forall i :: 0 <= i < |s| ==> '0' <= s[i] <= '9'
  {
    if s == [] then 0 else 10 * DigitsValue(s[..|s| - 1]) + (s[|s| - 1] as int - '0' as int)
  }

  /** An index name reads back as the index: no two indices share a name. */
  lemma {:induction false} NatToStringValue(n: nat)
    ensures DigitsValue(NatToString(n)) == n
  {
    var r := NatToString(n);
    if n >= 10 {
      NatToStringValue(n / 10);
      assert r[..|r| - 1] == NatToString(n / 10);
    }
  }

  /** Distinct indices have distinct names, so an index name picks out one element. */
  lemma NatToStringInjective(m: nat, n: nat)
    requires NatToString(m) == NatToString(n)
    ensures m == n
  {
    NatToStringValue(m);
    NatToStringValue(n);
  }

  /**
   * `Object.entries(v)` for any value but `null` (on `null` it throws): the
   * properties of an object, index/element pairs of an array or of a string,
   * nothing for a number or a boolean.
   */
  function Entries(v: Json): (es: seq<(string, Json)>)
    requires !v.JNull?
    ensures v.JObject? ==> es == v.props
    ensures v.JArray? ==> es == IndexedEntries(v.items)
    ensures v.JString? ==> es == IndexedEntries(Characters(v.s))
    ensures v.JBool? || v.JNumber? ==> es == []
  {
    match v
    case JObject(props) => props
    case JArray(items) => IndexedEntries(items)
    case JString(s) => IndexedEntries(Characters(s))
    case _ => []
  }

  /** The one-character strings a string is made of. */
  function Characters(s: string): (cs: seq<Json>)
    ensures |cs| == |s| && forall i :: 0 <= i < |s| ==> cs[i] == JString([s[i]])
  {
    if s == [] then [] else Characters(s[..|s| - 1]) + [JString([s[|s| - 1]])]
  }

  /** Index/element pairs, the index written as its decimal name, in index order. */
  function IndexedEntries(items: seq<Json>): (es: seq<(string, Json)>)
    ensures |es| == |items|
    ensures forall i :: 0 <= i < |es| ==> es[i] == (NatToString(i), items[i])
  {
    if items == [] then []
    else IndexedEntries(items[..|items| - 1]) + [(NatToString(|items| - 1), items[|items| - 1])]
  }

  /** The value of the last property named `key`, if any. */
  function LookupProp(props: seq<(string, Json)>, key: string): (r: Option<Json>)
    ensures r.None? <==> forall i :: 0 <= i < |props| ==> props[i].0 != key
    ensures r.Some? ==> exists i :: 0 <= i < |props| && props[i] == (key, r.value) &&
                                    forall j :: i < j < |props| ==> props[j].0 != key
  {
    if props == [] then None
    else if props[|props| - 1].0 == key then Some(props[|props| - 1].1)
    else LookupProp(props[..|props| - 1], key)
  }

  /** The index among `0 .. n-1` whose decimal name is `key`, if any. */
  function IndexNamed(key: string, n: nat): (r: Option<nat>)
    ensures r.None? ==> forall i :: 0 <= i < n ==> NatToString(i) != key
    ensures r.Some? ==> r.value < n && NatToString(r.value) == key
  {
    if n == 0 then None
    else if NatToString(n - 1) == key then Some(n - 1)
    else IndexNamed(key, n - 1)
  }

  /**
   * `v[key]` on an object or an array, restricted to own properties. `None`
   * stands for `undefined` and also for inherited prototype members, which
   * are functions or prototype objects and so coerce to NaN or 0 just as
   * `undefined` is skipped.
   */
  function Lookup(v: Json, key: string): (r: Option<Json>)
    requires v.IsObjectLike()
    ensures v.JObject? ==> r == LookupProp(v.props, key)
    ensures v.JArray? && key == "length" ==> r == Some(JNumber(Finite(|v.items| as real)))
    ensures v.JArray? && key != "length" && r.None? ==>
              forall i :: 0 <= i < |v.items| ==> NatToString(i) != key
    ensures v.JArray? && r.Some? && key != "length" ==>
              exists i :: 0 <= i < |v.items| && NatToString(i) == key && r.value == v.items[i]
  {
    match v
    case JObject(props) => LookupProp(props, key)
    case JArray(items) =>
      if key == "length" then Some(JNumber(Finite(|items| as real)))
      else match IndexNamed(key, |items|)
        case None => None
        case Some(i) => Some(items[i])
  }

  /** `items[i]` looked up by the index's name is the i-th element, and nothing else. */
  lemma LookupIndex(items: seq<Json>, i: nat)
    requires i < |items|
    ensures Lookup(JArray(items), NatToString(i)) == Some(items[i])
  {
    var key := NatToString(i);
    assert key != "length" by { assert 'l' != key[0]; }
    var r := Lookup(JArray(items), key);
    var j :| 0 <= j < |items| && NatToString(j) == key && r.value == items[j];
    NatToStringInjective(i, j);
  }

  function Join(parts: seq<string>, sep: string): string {
    if parts == [] then ""
    else if |parts| == 1 then parts[0]
    else parts[0] + sep + Join(parts[1..], sep)
  }

  /**
   * `String(v)`: arrays join their elements with "," (null elements as ""),
   * objects are "[object Object]". An object with an own `toString` property
   * makes the engine throw instead; that case is not modelled.
   */
  function JsToString(v: Json, host: Host): (r: string)
    ensures v.JString? ==> r == v.s
    ensures v.JNumber? ==> r == host.numberToString(v.n)
    ensures v.JObject? ==> r == "[object Object]"
    ensures v == JArray([]) ==> r == ""
    ensures v.JArray? && |v.items| == 1 ==>
              r == if v.items[0].JNull? then "" else JsToString(v.items[0], host)
    decreases v
  {
    match v
    case JNull => "null"
    case JBool(b) => if b then "true" else "false"
    case JNumber(n) => host.numberToString(n)
    case JString(s) => s
    case JObject(_) => "[object Object]"
    case JArray(items) =>
      Join(seq(|items|, i requires 0 <= i < |items| =>
                          if items[i].JNull? then "" else JsToString(items[i], host)), ",")
  }

  /** `Number(v)`, with `None` standing for `undefined`. */
  function ToNumber(v: Option<Json>, host: Host): (n: Num)
    ensures v.None? ==> n == NaN
    ensures v == Some(JNull) || v == Some(JBool(false)) ==> n == Finite(0.0)
    ensures v == Some(JBool(true)) ==> n == Finite(1.0)
    ensures v.Some? && v.value.JNumber? ==> n == v.value.n
    ensures v.Some? && v.value.JString? ==> n == host.stringToNumber(v.value.s)
    ensures v.Some? && v.value.IsObjectLike() ==> n == host.stringToNumber(JsToString(v.value, host))
  {
    match v
    case None => NaN
    case Some(JNull) => Finite(0.0)
    case Some(JBool(b)) => Finite(if b then 1.0 else 0.0)
    case Some(JNumber(n)) => n
    case Some(JString(s)) => host.stringToNumber(s)
    case Some(other) => host.stringToNumber(JsToString(other, host))
  }
}
