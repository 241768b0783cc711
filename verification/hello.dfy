/**
 * The helpers of src/utils/hello.ts: a greeting, nested property access
 * along a dotted path, two type guards, and the current user's name read
 * from the registry (passed explicitly).
 */
module Hello {
  import opened Wrappers
  import opened JsValue
  import Pkp

  // ---------------------------------------------------------------------
  // sayHello

  const DefaultName: string := "World"
  const GreetingPrefix: string := "Hello, "

  /** `Hello, ${name}!`: the name sits between the fixed prefix and `!`. */
  function SayHello(name: string): (r: string)
    ensures |r| == |GreetingPrefix| + |name| + 1
    ensures r[..|GreetingPrefix|] == GreetingPrefix && r[|r| - 1] == '!'
    ensures r[|GreetingPrefix|..|r| - 1] == name
  {
    GreetingPrefix + name + "!"
  }

  /** `sayHello()` with the default argument. */
  function SayHelloDefault(): (r: string)
    ensures r == "Hello, World!"
  {
    SayHello(DefaultName)
  }

  /** The name a greeting was made for, if it is a greeting at all. */
  function GreetedName(greeting: string): (r: Option<string>)
  {
    if |greeting| > |GreetingPrefix| && greeting[..|GreetingPrefix|] == GreetingPrefix
       && greeting[|greeting| - 1] == '!'
    then Some(greeting[|GreetingPrefix|..|greeting| - 1])
    else None
  }

  /** GreetedName inverts SayHello in both directions, so distinct names
      give distinct greetings. */
  lemma GreetingRoundTrip(name: string, greeting: string)
    ensures GreetedName(SayHello(name)) == Some(name)
    ensures GreetedName(greeting) == Some(name) ==> SayHello(name) == greeting
  {
    if GreetedName(greeting) == Some(name) {
      var n := |greeting|;
      assert greeting == greeting[..|GreetingPrefix|] + greeting[|GreetingPrefix|..n - 1] + [greeting[n - 1]];
    }
  }

  // ---------------------------------------------------------------------
  // String.prototype.split('.') and its inverse Array.prototype.join('.')

  /** The number of occurrences of `c` in `s`. */
  function Count(s: string, c: char): nat {
    if s == [] then 0 else (if s[0] == c then 1 else 0) + Count(s[1..], c)
  }

  /** `s.split('.')`: every dot ends a segment, so there is one segment more
      than there are dots, none contains a dot, and empty segments are kept. */
  function Split(s: string): (parts: seq<string>)
    ensures |parts| == Count(s, '.') + 1
    ensures forall i :: 0 <= i < |parts| ==> '.' !in parts[i]
  {
    if s == [] then [""]
    else
      var rest := Split(s[1..]);
      if s[0] == '.' then [""] + rest
      else [[s[0]] + rest[0]] + rest[1..]
  }

  /** `parts.join('.')`. */
  function Join(parts: seq<string>): string
    requires parts != []
  {
    if |parts| == 1 then parts[0] else parts[0] + "." + Join(parts[1..])
  }

  /** Joining the segments of a split gives back the string. */
  lemma {:induction false} JoinSplit(s: string)
    ensures Join(Split(s)) == s
  {
    if s != [] {
      JoinSplit(s[1..]);
      var rest := Split(s[1..]);
      if s[0] != '.' {
        if |rest| > 1 {
          assert Join(Split(s)) == [s[0]] + rest[0] + "." + Join(rest[1..]);
          assert Join(rest) == rest[0] + "." + Join(rest[1..]);
        }
      }
      assert s == [s[0]] + s[1..];
    }
  }

  /** A segment without dots is glued onto the first segment of what follows. */
  lemma {:induction false} SplitPrefix(p: string, t: string)
    requires '.' !in p
    ensures Split(p + t) == [p + Split(t)[0]] + Split(t)[1..]
  {
    if p != [] {
      assert p[0] in p;
      SplitPrefix(p[1..], t);
      assert (p + t)[0] == p[0] && (p + t)[1..] == p[1..] + t;
      var parts, rest := Split(t), Split(p[1..] + t);
      assert rest[0] == p[1..] + parts[0] && rest[1..] == parts[1..];
      assert Split(p + t) == [[p[0]] + rest[0]] + rest[1..];
      assert [p[0]] + (p[1..] + parts[0]) == p + parts[0];
    } else {
      var parts := Split(t);
      assert p + t == t && p + parts[0] == parts[0];
      assert parts == [parts[0]] + parts[1..];
    }
  }

  /** Splitting a path that starts with a dot-free segment `k` and a dot. */
  lemma SplitDotted(k: string, rest: string)
    requires '.' !in k
    ensures Split(k + "." + rest) == [k] + Split(rest)
  {
    SplitPrefix(k, "." + rest);
    assert ("." + rest)[0] == '.' && ("." + rest)[1..] == rest;
    assert Split("." + rest) == [""] + Split(rest);
    assert k + "" == k;
    assert k + "." + rest == k + ("." + rest);
  }

  /** A key without dots is a single segment. */
  lemma SplitNoDots(k: string)
    requires '.' !in k
    ensures Split(k) == [k]
  {
    SplitPrefix(k, "");
    assert k + "" == k;
  }

  /** Splitting a join of dot-free segments gives back the segments. */
  lemma {:induction false} SplitJoin(parts: seq<string>)
    requires parts != []
    requires forall i :: 0 <= i < |parts| ==> '.' !in parts[i]
    ensures Split(Join(parts)) == parts
  {
    if |parts| == 1 {
      SplitNoDots(parts[0]);
    } else {
      SplitJoin(parts[1..]);
      SplitDotted(parts[0], Join(parts[1..]));
    }
  }

  // ---------------------------------------------------------------------
  // getNested

  /** One step of the reduce callback:
      `acc && acc[key] !== undefined ? acc[key] : undefined`. */
  function Step(acc: Value, key: string): (r: Value)
    ensures !Truthy(acc) ==> r == Undefined
    ensures Truthy(acc) ==> Get(acc, key) == Success(r)
  {
    if Truthy(acc) then
      match Get(acc, key)
      case Success(x) => if x != Undefined then x else Undefined
      case Failure(_) => assert false; Undefined
    else Undefined
  }

  /** `keys.reduce(step, acc)`, folding from the left: no keys leave the
      accumulator as it is, and a falsy accumulator ends in `undefined`. */
  function Fold(acc: Value, keys: seq<string>): (r: Value)
    ensures keys == [] ==> r == acc
    ensures keys != [] && !Truthy(acc) ==> r == Undefined
    decreases keys
  {
    if keys == [] then acc else Fold(Step(acc, keys[0]), keys[1..])
  }

  /** `getNested(obj, path, defaultValue)`. */
  function GetNested(obj: Value, path: string, defaultValue: Value): (r: Value)
    ensures Truthy(obj) && Fold(obj, Split(path)) != Undefined ==> r == Fold(obj, Split(path))
    ensures !Truthy(obj) || Fold(obj, Split(path)) == Undefined ==> r == defaultValue
  {
    if !Truthy(obj) then defaultValue
    else
      var value := Fold(obj, Split(path));
      if value != Undefined then value else defaultValue
  }

  /** Once the lookup is undefined it stays undefined. */
  lemma {:induction false} FoldUndefined(keys: seq<string>)
    ensures Fold(Undefined, keys) == Undefined
  {
    if keys != [] {
      FoldUndefined(keys[1..]);
    }
  }

  /** Folding over a concatenation folds over each part in turn. */
  lemma {:induction false} FoldAppend(acc: Value, ks: seq<string>, ls: seq<string>)
    ensures Fold(acc, ks + ls) == Fold(Fold(acc, ks), ls)
    decreases ks
  {
    if ks != [] {
      assert (ks + ls)[1..] == ks[1..] + ls;
      FoldAppend(Step(acc, ks[0]), ks[1..], ls);
    } else {
      assert ks + ls == ls;
    }
  }

  /** `getNested` on a null or undefined (or otherwise falsy) object gives the default. */
  lemma GetNestedFalsyObject(obj: Value, path: string, defaultValue: Value)
    requires !Truthy(obj)
    ensures GetNested(obj, path, defaultValue) == defaultValue
  {
  }

  /** If the value reached after the first `i` segments (some but not all
      of them) is falsy, the remaining lookups yield undefined and the
      default is returned. */
  lemma GetNestedFalsyIntermediate(obj: Value, path: string, defaultValue: Value, i: nat)
    requires i < |Split(path)|
    requires !Truthy(Fold(obj, Split(path)[..i]))
    ensures GetNested(obj, path, defaultValue) == defaultValue
  {
    var keys := Split(path);
    assert keys == keys[..i] + keys[i..];
    FoldAppend(obj, keys[..i], keys[i..]);
    FoldUndefined(keys[i + 1..]);
  }

  /** A path with one segment reads that property of the object; a defined
      value is returned as is even when falsy (`0`, `""`, `false`, `null`). */
  lemma GetNestedSingleKey(obj: Value, key: string, defaultValue: Value)
    requires Truthy(obj) && '.' !in key
    ensures Get(obj, key).Success?
    ensures GetNested(obj, key, defaultValue) ==
              if Get(obj, key).value != Undefined then Get(obj, key).value else defaultValue
  {
    SplitNoDots(key);
    assert Fold(obj, [key]) == Fold(Step(obj, key), []);
  }

  /** A dotted path is one property read followed by the rest of the path:
      `getNested(o, "k.rest", d) == getNested(o[k], "rest", d)` for truthy `o`. */
  lemma GetNestedDotted(obj: Value, key: string, rest: string, defaultValue: Value)
    requires Truthy(obj) && '.' !in key
    ensures GetNested(obj, key + "." + rest, defaultValue) ==
              GetNested(Step(obj, key), rest, defaultValue)
  {
    SplitDotted(key, rest);
    var next := Step(obj, key);
    if !Truthy(next) {
      var keys := Split(rest);
      assert Fold(next, keys) == Fold(Undefined, keys[1..]);
      FoldUndefined(keys[1..]);
    }
  }

  // ---------------------------------------------------------------------
  // Type guards

  /** `value !== null && typeof value === 'object' && !Array.isArray(value)`:
      exactly the plain objects and the boxed strings. */
  function IsObject(v: Value): (r: bool)
    ensures r <==> v.Defined? && (v.json.JObj? || v.json.JStrObj?)
  {
    v != Defined(JNull) && TypeOf(v) == "object" && !IsArray(v)
  }

  /** `typeof value === 'string' || value instanceof String`: the primitive
      strings and the boxed strings. */
  function IsString(v: Value): (r: bool)
    ensures r <==> v.Defined? && (v.json.JStr? || v.json.JStrObj?)
  {
    TypeOf(v) == "string" || IsStringInstance(v)
  }

  /** The two guards overlap on boxed strings only. */
  lemma ObjectAndString(v: Value)
    ensures IsObject(v) && IsString(v) <==> v.Defined? && v.json.JStrObj?
  {
  }

  // ---------------------------------------------------------------------
  // getCurrentUsername

  /** `pkp?.registry?.user?.username ?? null`, with `None` for null. */
  function GetCurrentUsername(reg: Option<Pkp.Registry>): (r: Option<string>)
    ensures r.Some? <==> reg.Some? && reg.value.user.Some?
    ensures r.Some? ==> r.value == reg.value.user.value.username
  {
    if reg.Some? && reg.value.user.Some? then Some(reg.value.user.value.username) else None
  }
}
