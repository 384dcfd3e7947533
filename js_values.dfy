/**
 * JavaScript values and the handful of built-in behaviours the Hue client relies on:
 * property lookup and assignment on plain objects, truthiness, `String.prototype.trim`,
 * `Array.prototype.find`, `Object.keys` and decimal number-to-string conversion.
 *
 * `JSON.parse` itself is not defined here: the modules that need it take it as a
 * function parameter, so its result is any `JsValue` (or a `SyntaxError`).
 */
module Js {

  datatype Option<T> = None | Some(value: T)

  /** The errors a JavaScript operation of the client can throw. */
  datatype JsError =
    | TypeError        // property access on `undefined`/`null`, a call of a missing method
    | SyntaxError      // `JSON.parse` of text that is not JSON
    | Thrown(message: string)   // an `Error` raised by the client's own code or by `fetch`

  datatype Result<T> = Ok(value: T) | Err(error: JsError)

  /** The JSON-representable JavaScript values plus `undefined`. */
  datatype JsValue =
    | Undefined
    | Null
    | Bool(b: bool)
    | Number(n: real)
    | Str(s: string)
    | Arr(items: seq<JsValue>)
    | Obj(props: seq<(string, JsValue)>)   // own properties in enumeration order

  /** The own properties of a plain object, in `Object.keys` order. */
  type Props = seq<(string, JsValue)>

  /** No key appears twice among an object's own properties. */
  ghost predicate DistinctKeys(props: Props)
  {
    forall i, j :: 0 <= i < j < |props| ==> props[i].0 != props[j].0
  }

  ghost predicate HasKey(props: Props, key: string)
  {
    exists i :: 0 <= i < |props| && props[i].0 == key
  }

  /** `obj[key]` on a plain object: the property's value, or `undefined` when it is absent. */
  function Lookup(props: Props, key: string): (v: JsValue)
    ensures !HasKey(props, key) ==> v == Undefined
    ensures forall i :: 0 <= i < |props| && props[i].0 == key && (forall j :: 0 <= j < i ==> props[j].0 != key) ==> v == props[i].1
  {
    if props == [] then Undefined
    else if props[0].0 == key then props[0].1
    else
      assert forall i :: 1 <= i < |props| ==> props[i] == props[1..][i - 1];
      Lookup(props[1..], key)
  }

  /**
   * `obj[key] = v` on a plain object: an existing property keeps its place and takes the
   * new value; a new property is added after all existing ones. That is the order
   * JavaScript gives keys that are not array indices, the only kind the client writes
   * (`on`, `x`, `y`, `bri`); index-like keys, which JavaScript lists first, are not modelled.
   */
  function SetProp(props: Props, key: string, v: JsValue): (r: Props)
    ensures |r| == if HasKey(props, key) then |props| else |props| + 1
    ensures forall i :: 0 <= i < |props| ==> r[i].0 == props[i].0
    ensures forall i :: 0 <= i < |props| && props[i].0 != key ==> r[i] == props[i]
    ensures !HasKey(props, key) ==> r == props + [(key, v)]
  {
    if props == [] then [(key, v)]
    else if props[0].0 == key then [(key, v)] + props[1..]
    else
      var rest := SetProp(props[1..], key, v);
      assert HasKey(props, key) <==> HasKey(props[1..], key) by {
        if HasKey(props, key) {
          var i :| 0 <= i < |props| && props[i].0 == key;
          assert props[1..][i - 1].0 == key;
        }
        if HasKey(props[1..], key) {
          var i :| 0 <= i < |props[1..]| && props[1..][i].0 == key;
          assert props[i + 1].0 == key;
        }
      }
      [props[0]] + rest
  }

  /** After `obj[key] = v`, reading `key` gives `v` and every other key reads as before. */
  lemma {:induction false} SetPropLookup(props: Props, key: string, v: JsValue, other: string)
    ensures Lookup(SetProp(props, key, v), key) == v
    ensures other != key ==> Lookup(SetProp(props, key, v), other) == Lookup(props, other)
  {
    if props != [] && props[0].0 != key {
      SetPropLookup(props[1..], key, v, other);
      var r := SetProp(props, key, v);
      assert r[1..] == SetProp(props[1..], key, v);
    }
  }

  /** Assignment keeps the keys of an object distinct. */
  lemma SetPropDistinct(props: Props, key: string, v: JsValue)
    requires DistinctKeys(props)
    ensures DistinctKeys(SetProp(props, key, v))
  {
    var r := SetProp(props, key, v);
    if HasKey(props, key) {
      assert forall i :: 0 <= i < |r| ==> r[i].0 == props[i].0;
    } else {
      assert forall i :: 0 <= i < |props| ==> r[i] == props[i];
      assert r[|props|].0 == key;
    }
  }

  /** A second assignment to the same key overrides the first. */
  lemma {:induction false} SetPropTwice(props: Props, key: string, v1: JsValue, v2: JsValue)
    ensures SetProp(SetProp(props, key, v1), key, v2) == SetProp(props, key, v2)
  {
    if props != [] && props[0].0 != key {
      SetPropTwice(props[1..], key, v1, v2);
      var r1 := SetProp(props, key, v1);
      assert r1[0] == props[0] && r1[1..] == SetProp(props[1..], key, v1);
    }
  }

  /** Writing back the value a present key already holds leaves the object as it was. */
  lemma {:induction false} SetPropSame(props: Props, key: string)
    requires HasKey(props, key)
    ensures SetProp(props, key, Lookup(props, key)) == props
  {
    if props[0].0 != key {
      var i :| 0 <= i < |props| && props[i].0 == key;
      assert props[1..][i - 1].0 == key;
      SetPropSame(props[1..], key);
    }
  }

  /** JavaScript truthiness (`!!v`). `NaN` does not arise from JSON text. */
  predicate Truthy(v: JsValue)
  {
    match v
    case Undefined => false
    case Null => false
    case Bool(b) => b
    case Number(n) => n != 0.0
    case Str(s) => s != ""
    case Arr(_) => true
    case Obj(_) => true
  }

  /**
   * The keys `Object.keys` lists for an array or string of length `n`: "0", "1", ...,
   * each of which reads back as its own index.
   */
  function IndexKeys(n: nat): (keys: seq<string>)
    ensures |keys| == n
    ensures forall i :: 0 <= i < n ==> ParseIndex(keys[i]) == Some(i)
  {
    var keys := seq(n, i requires 0 <= i => Decimal(i));
    assert forall i :: 0 <= i < n ==> ParseIndex(keys[i]) == Some(i) by {
      forall i | 0 <= i < n
        ensures ParseIndex(keys[i]) == Some(i)
      {
        ParseIndexDecimal(i);
      }
    }
    keys
  }

  /** The own keys of an object, in property order. */
  function KeysOf(props: Props): seq<string>
  {
    seq(|props|, i requires 0 <= i < |props| => props[i].0)
  }

  /** `Object.keys` of an object lists one key per own property, and exactly the keys it has. */
  lemma KeysOfHasKey(props: Props)
    ensures |KeysOf(props)| == |props|
    ensures forall k :: k in KeysOf(props) <==> HasKey(props, k)
  {
    var keys := KeysOf(props);
    forall k | k in keys
      ensures HasKey(props, k)
    {
      var i :| 0 <= i < |keys| && keys[i] == k;
      assert props[i].0 == k;
    }
    forall k | HasKey(props, k)
      ensures k in keys
    {
      var i :| 0 <= i < |props| && props[i].0 == k;
      assert keys[i] == k;
    }
  }

  /** `Object.keys` lists an object's keys in property order. */
  lemma KeysOfOrder(props: Props)
    ensures forall i :: 0 <= i < |props| ==> KeysOf(props)[i] == props[i].0
  {
  }

  /**
   * Every key `Object.keys(v)` lists reads back, as `v[key]`, the element or property it
   * was listed for; for an object this needs its keys to be distinct, as JSON objects are.
   */
  lemma ObjectKeysRead(v: JsValue)
    requires v.Obj? ==> DistinctKeys(v.props)
    ensures v.Obj? ==> forall i :: 0 <= i < |v.props| ==> GetProperty(v, ObjectKeys(v).value[i]) == Ok(v.props[i].1)
    ensures v.Arr? ==> forall i :: 0 <= i < |v.items| ==> GetProperty(v, ObjectKeys(v).value[i]) == Ok(v.items[i])
    ensures v.Str? ==> forall i :: 0 <= i < |v.s| ==> GetProperty(v, ObjectKeys(v).value[i]) == Ok(Str([v.s[i]]))
  {
    match v
    case Obj(props) =>
      forall i | 0 <= i < |props|
        ensures Lookup(props, props[i].0) == props[i].1
      {
        assert forall j :: 0 <= j < i ==> props[j].0 != props[i].0;
      }
    case Arr(items) =>
      forall i | 0 <= i < |items|
        ensures GetProperty(v, ObjectKeys(v).value[i]) == Ok(items[i])
      {
        IndexKeyIsNotLength(IndexKeys(|items|)[i], i);
      }
    case Str(s) =>
      forall i | 0 <= i < |s|
        ensures GetProperty(v, ObjectKeys(v).value[i]) == Ok(Str([s[i]]))
      {
        IndexKeyIsNotLength(IndexKeys(|s|)[i], i);
      }
    case _ =>
  }

  /** A key that reads as an index is not the key `length`. */
  lemma IndexKeyIsNotLength(key: string, i: nat)
    requires ParseIndex(key) == Some(i)
    ensures key != "length"
  {
  }

  /**
   * `Object.keys(v)`: a `TypeError` on `undefined` and `null`, the index keys of an array
   * or a string, the own keys of an object, and nothing for booleans and numbers.
   */
  function ObjectKeys(v: JsValue): (r: Result<seq<string>>)
    ensures r.Err? <==> v.Undefined? || v.Null?
    ensures r.Err? ==> r.error == TypeError
    ensures v.Obj? ==> r == Ok(KeysOf(v.props))
    ensures v.Arr? ==> r.Ok? && |r.value| == |v.items|
    ensures v.Str? ==> r.Ok? && |r.value| == |v.s|
    ensures v.Bool? || v.Number? ==> r == Ok([])
  {
    match v
    case Undefined => Err(TypeError)
    case Null => Err(TypeError)
    case Bool(_) => Ok([])
    case Number(_) => Ok([])
    case Str(s) => Ok(IndexKeys(|s|))
    case Arr(items) => Ok(IndexKeys(|items|))
    case Obj(props) => Ok(KeysOf(props))
  }

  /**
   * `v[key]`: a `TypeError` on `undefined` and `null`; own properties of objects, elements
   * and `length` of arrays and strings; `undefined` for every other key (inherited
   * properties are not modelled).
   */
  function GetProperty(v: JsValue, key: string): (r: Result<JsValue>)
    ensures r.Err? <==> v.Undefined? || v.Null?
    ensures r.Err? ==> r.error == TypeError
    ensures v.Obj? ==> r == Ok(Lookup(v.props, key))
  {
    match v
    case Undefined => Err(TypeError)
    case Null => Err(TypeError)
    case Obj(props) => Ok(Lookup(props, key))
    case Arr(items) =>
      if key == "length" then Ok(Number(|items| as real))
      else (match ParseIndex(key)
            case Some(i) => if i < |items| then Ok(items[i]) else Ok(Undefined)
            case None => Ok(Undefined))
    case Str(s) =>
      if key == "length" then Ok(Number(|s| as real))
      else (match ParseIndex(key)
            case Some(i) => if i < |s| then Ok(Str([s[i]])) else Ok(Undefined)
            case None => Ok(Undefined))
    case _ => Ok(Undefined)
  }

  /**
   * A key that is neither `length` nor starts with a digit names no property of an array,
   * a string, a boolean or a number: reading it gives `undefined`.
   */
  lemma NamedKeyOfPrimitive(v: JsValue, key: string)
    requires key != [] && !('0' <= key[0] <= '9') && key != "length"
    ensures !v.Obj? && !v.Undefined? && !v.Null? ==> GetProperty(v, key) == Ok(Undefined)
  {
    assert ParseIndex(key) == None;
  }

  // ---------------------------------------------------------------------------
  // Strings

  /**
   * The characters ECMAScript strips in `trim` and skips in `parseInt`: WhiteSpace
   * (TAB, VT, FF, ZWNBSP and every category Zs space) and LineTerminator (LF, CR, LS, PS).
   */
  predicate IsJsWhitespace(c: char)
  {
    c == '\U{9}' || c == '\U{B}' || c == '\U{C}' || c == '\U{FEFF}' ||
    c == '\U{A}' || c == '\U{D}' || c == '\U{2028}' || c == '\U{2029}' ||
    c == '\U{20}' || c == '\U{A0}' || c == '\U{1680}' || ('\U{2000}' <= c <= '\U{200A}') ||
    c == '\U{202F}' || c == '\U{205F}' || c == '\U{3000}'
  }

  /** `s.trimStart()` */
  function TrimStart(s: string): string
  {
    if s != [] && IsJsWhitespace(s[0]) then TrimStart(s[1..]) else s
  }

  /** `s.trimEnd()` */
  function TrimEnd(s: string): string
  {
    if s != [] && IsJsWhitespace(s[|s| - 1]) then TrimEnd(s[..|s| - 1]) else s
  }

  /** `s.trim()` */
  function Trim(s: string): string
  {
    TrimEnd(TrimStart(s))
  }

  lemma {:induction false} TrimStartEmpty(s: string)
    ensures TrimStart(s) == [] <==> forall i :: 0 <= i < |s| ==> IsJsWhitespace(s[i])
  {
    if s != [] && IsJsWhitespace(s[0]) {
      TrimStartEmpty(s[1..]);
      assert forall i :: 1 <= i < |s| ==> s[i] == s[1..][i - 1];
    }
  }

  lemma {:induction false} TrimEndEmpty(s: string)
    ensures TrimEnd(s) == [] <==> forall i :: 0 <= i < |s| ==> IsJsWhitespace(s[i])
  {
    if s != [] && IsJsWhitespace(s[|s| - 1]) {
      TrimEndEmpty(s[..|s| - 1]);
      assert forall i :: 0 <= i < |s| - 1 ==> s[i] == s[..|s| - 1][i];
    }
  }

  /** `s.trim().length > 0` exactly when `s` holds a character that is not whitespace. */
  lemma TrimNonEmpty(s: string)
    ensures |Trim(s)| > 0 <==> exists i :: 0 <= i < |s| && !IsJsWhitespace(s[i])
  {
    TrimStartEmpty(s);
    TrimEndEmpty(TrimStart(s));
    TrimStartSuffix(s);
  }

  /** What `trimStart` leaves is a suffix of `s` whose dropped prefix is all whitespace. */
  lemma {:induction false} TrimStartSuffix(s: string)
    ensures |TrimStart(s)| <= |s|
    ensures TrimStart(s) == s[|s| - |TrimStart(s)|..]
    ensures forall i :: 0 <= i < |s| - |TrimStart(s)| ==> IsJsWhitespace(s[i])
  {
    if s != [] && IsJsWhitespace(s[0]) {
      TrimStartSuffix(s[1..]);
      assert forall i :: 1 <= i < |s| ==> s[i] == s[1..][i - 1];
      assert s[1..][|s| - 1 - |TrimStart(s[1..])|..] == s[|s| - |TrimStart(s)|..];
    }
  }

  /**
   * The text a value becomes in string concatenation (`"" + v`). `numberText` stands for
   * `Number.prototype.toString`; an array joins its elements with commas, writing
   * `undefined` and `null` elements as empty text.
   */
  function ToJsString(v: JsValue, numberText: real -> string): string
    decreases v, 1
  {
    match v
    case Undefined => "undefined"
    case Null => "null"
    case Bool(b) => if b then "true" else "false"
    case Number(n) => numberText(n)
    case Str(s) => s
    case Arr(items) => JoinItems(v, items, numberText)
    case Obj(_) => "[object Object]"
  }

  function JoinItems(whole: JsValue, items: seq<JsValue>, numberText: real -> string): string
    requires whole.Arr? && items <= whole.items
    decreases whole, 0, |items|
  {
    if items == [] then ""
    else
      var last := items[|items| - 1];
      assert last in whole.items;
      var text := if last.Undefined? || last.Null? then "" else ToJsString(last, numberText);
      if |items| == 1 then text
      else JoinItems(whole, items[..|items| - 1], numberText) + "," + text
  }

  // ---------------------------------------------------------------------------
  // Decimal number-to-string, as `String(n)` and `"" + n` print a non-negative integer

  function DecimalDigit(d: nat): (c: char)
    requires d < 10
    ensures '0' <= c <= '9' && (c as int) - ('0' as int) == d
  {
    (('0' as int) + d) as char
  }

  /** The shortest decimal numeral of `n` (no leading zeros). */
  function Decimal(n: nat): (s: string)
    ensures |s| >= 1
    ensures forall i :: 0 <= i < |s| ==> '0' <= s[i] <= '9'
    ensures n >= 10 ==> s[0] != '0'
  {
    if n < 10 then [DecimalDigit(n)] else Decimal(n / 10) + [DecimalDigit(n % 10)]
  }

  /** The canonical array-index reading of a property key: a decimal numeral with no leading zero. */
  function ParseIndex(key: string): Option<nat>
  {
    if key == [] || (|key| > 1 && key[0] == '0') then None
    else if forall i :: 0 <= i < |key| ==> '0' <= key[i] <= '9' then Some(DecimalValue(key))
    else None
  }

  function DecimalValue(s: string): nat
    requires forall i :: 0 <= i < |s| ==> '0' <= s[i] <= '9'
  {
    if s == [] then 0
    else 10 * DecimalValue(s[..|s| - 1]) + ((s[|s| - 1] as int) - ('0' as int))
  }

  /** Array element `i` is found under the key `Decimal(i)`, the key `Object.keys` lists for it. */
  lemma {:induction false} ParseIndexDecimal(n: nat)
    ensures ParseIndex(Decimal(n)) == Some(n)
  {
    DecimalValueOf(n);
  }

  lemma {:induction false} DecimalValueOf(n: nat)
    ensures DecimalValue(Decimal(n)) == n
  {
    if n >= 10 {
      DecimalValueOf(n / 10);
      var s := Decimal(n);
      assert s[..|s| - 1] == Decimal(n / 10);
      assert (s[|s| - 1] as int) - ('0' as int) == n % 10;
    }
  }

  // ---------------------------------------------------------------------------
  // Array.prototype.find

  /** The index of the element `arr.find(p)` returns, or `None` when it returns `undefined`. */
  function FindFirst<T>(s: seq<T>, p: T -> bool): (r: Option<nat>)
    ensures r.Some? ==> r.value < |s| && p(s[r.value]) && forall j :: 0 <= j < r.value ==> !p(s[j])
    ensures r.None? <==> forall j :: 0 <= j < |s| ==> !p(s[j])
  {
    if s == [] then None
    else if p(s[0]) then Some(0)
    else
      match FindFirst(s[1..], p)
      case None => None
      case Some(i) => Some(i + 1)
  }

  /**
   * `Array.prototype.map` with a callback that may throw: the mapped list when every
   * element maps, and `None` as soon as one throws.
   */
  function MapResults<T, U>(xs: seq<T>, f: T -> Result<U>): (r: Option<seq<U>>)
    ensures r.Some? <==> forall i :: 0 <= i < |xs| ==> f(xs[i]).Ok?
    ensures r.Some? ==> |r.value| == |xs| && forall i :: 0 <= i < |xs| ==> f(xs[i]) == Ok(r.value[i])
  {
    if xs == [] then Some([])
    else
      match f(xs[0])
      case Err(_) => None
      case Ok(y) =>
        match MapResults(xs[1..], f)
        case None =>
          var j :| 0 <= j < |xs| - 1 && !f(xs[1..][j]).Ok?;
          assert xs[j + 1] == xs[1..][j];
          None
        case Some(rest) =>
          assert forall i :: 1 <= i < |xs| ==> xs[i] == xs[1..][i - 1];
          Some([y] + rest)
  }
}
