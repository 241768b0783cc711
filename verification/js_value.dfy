/**
 * The slice of JavaScript's value semantics that the utilities rely on:
 * JSON-like values, `undefined`, truthiness, `typeof`, `Array.isArray`,
 * `instanceof String`, property reads `v[key]`, and the decimal rendering
 * of integers used by template literals.
 */
module JsValue {
  import opened Wrappers

  /** A JSON-like value. Numbers are integers here; a boxed `String`
      object (`new String(s)`) is kept apart from a primitive string. */
  datatype Json =
    | JNull
    | JBool(b: bool)
    | JNum(n: int)
    | JStr(s: string)
    | JStrObj(s: string)
    | JArr(items: seq<Json>)
    | JObj(fields: map<string, Json>)

  /** The value of an expression: `undefined` or a defined value. */
  datatype Value = Undefined | Defined(json: Json)

  /** Reading a property of `undefined` or `null`. */
  datatype TypeError = CannotReadProperty(key: string)

  /** ToBoolean on a string that may be absent: present and non-empty. */
  predicate TruthyString(s: Option<string>) {
    s.Some? && s.value != ""
  }

  /** ToBoolean: `undefined`, `null`, `false`, `0` and the empty primitive
      string are falsy; every object, even an empty one, is truthy. */
  predicate Truthy(v: Value)
    ensures Truthy(v) <==> v !in {Undefined, Defined(JNull), Defined(JBool(false)), Defined(JNum(0)), Defined(JStr(""))}
  {
    match v
    case Undefined => false
    case Defined(j) =>
      match j
      case JNull => false
      case JBool(b) => b
      case JNum(n) => n != 0
      case JStr(s) => TruthyString(Some(s))
      case _ => true
  }

  /** The `typeof` operator. */
  function TypeOf(v: Value): (r: string)
    ensures r in {"undefined", "boolean", "number", "string", "object"}
    ensures r == "object" <==> v.Defined? && (v.json.JNull? || v.json.JStrObj? || v.json.JArr? || v.json.JObj?)
    ensures r == "string" <==> v.Defined? && v.json.JStr?
  {
    match v
    case Undefined => "undefined"
    case Defined(j) =>
      match j
      case JBool(_) => "boolean"
      case JNum(_) => "number"
      case JStr(_) => "string"
      case _ => "object"
  }

  /** `Array.isArray(v)`: an array is a truthy value whose `typeof` is `object`. */
  predicate IsArray(v: Value)
    ensures IsArray(v) ==> TypeOf(v) == "object" && Truthy(v)
  {
    v.Defined? && v.json.JArr?
  }

  /** `v instanceof String`: only boxed strings, which are truthy non-array
      objects even when the string inside is empty. */
  predicate IsStringInstance(v: Value)
    ensures IsStringInstance(v) ==> TypeOf(v) == "object" && Truthy(v) && !IsArray(v)
  {
    v.Defined? && v.json.JStrObj?
  }

  // ---------------------------------------------------------------------
  // Decimal digits

  predicate IsDigit(c: char) {
    '0' <= c <= '9'
  }

  predicate AllDigits(s: string) {
    forall i :: 0 <= i < |s| ==> IsDigit(s[i])
  }

  function DigitChar(d: nat): (c: char)
    requires d < 10
    ensures IsDigit(c) && c as int - '0' as int == d
  {
    (d + '0' as int) as char
  }

  /** The value of a string of decimal digits, most significant first. */
  function DigitsValue(s: string): nat
    requires AllDigits(s)
  {
    if s == [] then 0
    else DigitsValue(s[..|s| - 1]) * 10 + (s[|s| - 1] as int - '0' as int)
  }

  /** The decimal rendering of a natural number, as `${n}` produces it:
      digits only, and no leading zero except for `0` itself. */
  function NatToString(n: nat): (r: string)
    ensures r != [] && AllDigits(r)
    ensures r[0] == '0' <==> n == 0
    decreases n
  {
    if n < 10 then [DigitChar(n)]
    else NatToString(n / 10) + [DigitChar(n % 10)]
  }

  /** The decimal rendering of an integer, with a leading `-` when negative. */
  function IntToString(i: int): (r: string)
    ensures r != []
    ensures r[0] == '-' <==> i < 0
    ensures i < 0 ==> r[1..] == NatToString(-i)
    ensures i >= 0 ==> r == NatToString(i)
  {
    if i < 0 then "-" + NatToString(-i) else NatToString(i)
  }

  /** A property key that names an array or string index: a non-empty run
      of digits without a leading zero (so "0" but not "01"). */
  function CanonicalIndex(key: string): (r: Option<nat>)
    ensures r.Some? ==> key != [] && AllDigits(key)
  {
    if key != [] && AllDigits(key) && (key[0] != '0' || |key| == 1)
    then Some(DigitsValue(key))
    else None
  }

  lemma {:induction false} DigitsOfNatToString(n: nat)
    ensures DigitsValue(NatToString(n)) == n
    decreases n
  {
    var r := NatToString(n);
    if n >= 10 {
      DigitsOfNatToString(n / 10);
      assert r[..|r| - 1] == NatToString(n / 10);
    }
  }

  /** Rendering an index and reading it back as a property key gives the index. */
  lemma CanonicalIndexOfNatToString(n: nat)
    ensures CanonicalIndex(NatToString(n)) == Some(n)
  {
    DigitsOfNatToString(n);
  }

  lemma {:induction false} LeadingDigitPositive(s: string)
    requires s != [] && AllDigits(s) && s[0] != '0'
    ensures DigitsValue(s) >= 1
    decreases |s|
  {
    if |s| > 1 {
      var p := s[..|s| - 1];
      assert p[0] == s[0];
      LeadingDigitPositive(p);
    }
  }

  /** Every canonical index key is the rendering of the index it names, so
      CanonicalIndex and NatToString are inverse to each other. */
  lemma {:induction false} NatToStringOfCanonicalIndex(key: string)
    requires CanonicalIndex(key).Some?
    ensures NatToString(CanonicalIndex(key).value) == key
    decreases |key|
  {
    var n := DigitsValue(key);
    if |key| > 1 {
      var p := key[..|key| - 1];
      var d := key[|key| - 1] as int - '0' as int;
      assert p[0] == key[0];
      LeadingDigitPositive(p);
      assert n / 10 == DigitsValue(p) && n % 10 == d;
      NatToStringOfCanonicalIndex(p);
      assert n >= 10;
      assert DigitChar(d) == key[|key| - 1];
      assert key == p + [key[|key| - 1]];
    } else {
      assert |key| == 1 && key[..|key| - 1] == [] && IsDigit(key[0]);
      assert DigitsValue(key) == DigitsValue([]) * 10 + (key[0] as int - '0' as int);
    }
  }

  // ---------------------------------------------------------------------
  // Property access

  /** The own properties of a string that the model knows: its indices,
      each a one-character string, and `length`. */
  function StringProperty(s: string, key: string): (r: Value)
    ensures r.Defined? ==> key == "length" || (r.json.JStr? && |r.json.s| == 1)
    ensures key == "length" ==> r == Defined(JNum(|s|))
  {
    if key == "length" then Defined(JNum(|s|))
    else match CanonicalIndex(key)
      case Some(i) => if i < |s| then Defined(JStr([s[i]])) else Undefined
      case None => Undefined
  }

  /** `v[key]`: a TypeError for `undefined` and `null`; otherwise the own
      property of an object, the element or `length` of an array or
      string, and `undefined` for anything else. */
  function Get(v: Value, key: string): (r: Result<Value, TypeError>)
    ensures r.Failure? <==> v == Undefined || v == Defined(JNull)
    ensures v.Defined? && v.json.JObj? ==>
              r == Success(if key in v.json.fields then Defined(v.json.fields[key]) else Undefined)
  {
    match v
    case Undefined => Failure(CannotReadProperty(key))
    case Defined(j) =>
      match j
      case JNull => Failure(CannotReadProperty(key))
      case JStr(s) => Success(StringProperty(s, key))
      case JStrObj(s) => Success(StringProperty(s, key))
      case JArr(xs) =>
        if key == "length" then Success(Defined(JNum(|xs|)))
        else (match CanonicalIndex(key)
              case Some(i) => Success(if i < |xs| then Defined(xs[i]) else Undefined)
              case None => Success(Undefined))
      case JObj(m) => Success(if key in m then Defined(m[key]) else Undefined)
      case _ => Success(Undefined)
  }

  /** Reading a string by the rendering of an in-range index gives the
      one-character string at that index. */
  lemma GetStringIndex(s: string, i: nat)
    requires i < |s|
    ensures StringProperty(s, NatToString(i)) == Defined(JStr([s[i]]))
  {
    CanonicalIndexOfNatToString(i);
    assert NatToString(i) != "length" by {
      assert AllDigits(NatToString(i)) && !IsDigit("length"[0]);
    }
  }

  /** Reading an array element by the rendering of its index gives that element. */
  lemma GetArrayIndex(xs: seq<Json>, i: nat)
    requires i < |xs|
    ensures Get(Defined(JArr(xs)), NatToString(i)) == Success(Defined(xs[i]))
  {
    CanonicalIndexOfNatToString(i);
  }
}
