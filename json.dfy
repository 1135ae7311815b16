/** Parsed JSON values as Python's `json.loads` hands them to the validator, and the few
    Python operations the validator applies to them: key lookup, truthiness, iteration,
    `str.lower()` and `str(int)`. */
module Json {

  datatype Option<+T> = None | Some(value: T)

  /** A JSON value. Objects keep their members in the order the dictionary iterates them;
      `json.loads` never yields two members with the same key (the last one in the text wins),
      so the model's objects are meant to have distinct keys, although the lemmas below do not
      need it. Numbers are integers only. */
  datatype Value =
    | JNull
    | JBool(b: bool)
    | JNum(n: int)
    | JStr(s: string)
    | JArr(items: seq<Value>)
    | JObj(fields: seq<(string, Value)>)

  /** `d[key]` on a dictionary: the value of the first member named `key`, or None
      (Python raises KeyError). */
  function Lookup(fields: seq<(string, Value)>, key: string): Option<Value>
  {
    if fields == [] then None
    else if fields[0].0 == key then Some(fields[0].1)
    else Lookup(fields[1..], key)
  }

  /** The lookup finds a member exactly when one has that key, and what it finds is that
      member's value. */
  lemma {:induction false} LookupFinds(fields: seq<(string, Value)>, key: string)
    ensures Lookup(fields, key).Some? <==> exists i :: 0 <= i < |fields| && fields[i].0 == key
    ensures Lookup(fields, key).Some? ==> (key, Lookup(fields, key).value) in fields
  {
    if fields != [] && fields[0].0 != key {
      LookupFinds(fields[1..], key);
      if exists i :: 0 <= i < |fields| && fields[i].0 == key {
        var i :| 0 <= i < |fields| && fields[i].0 == key;
        assert fields[1..][i - 1].0 == key;
      }
    }
  }

  /** `v[key]`: None when `v` is not an object or lacks the key (Python raises). */
  function Member(v: Value, key: string): Option<Value>
  {
    if v.JObj? then Lookup(v.fields, key) else None
  }

  /** `v[outer][inner]`: found exactly when `v` has `outer` and that has `inner`. */
  function Nested(v: Value, outer: string, inner: string): (r: Option<Value>)
    ensures r.Some? <==> Member(v, outer).Some? && Member(Member(v, outer).value, inner).Some?
    ensures r.Some? ==> r == Member(Member(v, outer).value, inner)
  {
    match Member(v, outer)
    case None => None
    case Some(w) => Member(w, inner)
  }

  /** `d[key] = v` on an existing key: replaces the first member named `key`. */
  function Update(fields: seq<(string, Value)>, key: string, v: Value): (r: seq<(string, Value)>)
    ensures |r| == |fields|
    ensures forall i :: 0 <= i < |fields| ==> r[i].0 == fields[i].0
  {
    if fields == [] then []
    else if fields[0].0 == key then [(key, v)] + fields[1..]
    else [fields[0]] + Update(fields[1..], key, v)
  }

  /** After an update, the key reads back the new value and every other key reads what it read before. */
  lemma {:induction false} UpdateLookup(fields: seq<(string, Value)>, key: string, v: Value, other: string)
    requires Lookup(fields, key).Some?
    ensures Lookup(Update(fields, key, v), key) == Some(v)
    ensures other != key ==> Lookup(Update(fields, key, v), other) == Lookup(fields, other)
  {
    if fields[0].0 != key {
      UpdateLookup(fields[1..], key, v, other);
    }
  }

  /** Python truthiness: `None`, `False`, `0`, and empty strings, lists and dicts are false. */
  function Truthy(v: Value): (r: bool)
    ensures !r <==> v in {JNull, JBool(false), JNum(0), JStr([]), JArr([]), JObj([])}
  {
    match v
    case JNull => false
    case JBool(b) => b
    case JNum(n) => n != 0
    case JStr(s) => |s| > 0
    case JArr(items) => |items| > 0
    case JObj(fields) => |fields| > 0
  }

  /** The elements a Python `for` loop visits: the items of a list, the one-character strings
      of a string, the keys of a dict; None where Python raises "object is not iterable". */
  function Iterate(v: Value): (r: Option<seq<Value>>)
    ensures r.Some? <==> (v.JArr? || v.JStr? || v.JObj?)
  {
    match v
    case JArr(items) => Some(items)
    case JStr(s) => Some(Characters(s))
    case JObj(fields) => Some(Keys(fields))
    case _ => None
  }

  /** The one-character strings of `s`, in order. */
  function Characters(s: string): (r: seq<Value>)
    ensures |r| == |s|
    ensures forall i :: 0 <= i < |s| ==> r[i] == JStr([s[i]])
  {
    if s == [] then [] else [JStr([s[0]])] + Characters(s[1..])
  }

  /** The keys of a dictionary, in iteration order. */
  function Keys(fields: seq<(string, Value)>): (r: seq<Value>)
    ensures |r| == |fields|
    ensures forall i :: 0 <= i < |fields| ==> r[i] == JStr(fields[i].0)
  {
    if fields == [] then [] else [JStr(fields[0].0)] + Keys(fields[1..])
  }

  /** The largest `int` of a 64-bit Python 2 (`sys.maxint`); `json.loads` turns any integer
      beyond the range of `int` into a `long`. */
  const MaxInt: int := 0x7FFF_FFFF_FFFF_FFFF

  /** Python 2's name of a value's type, as it appears in TypeError messages. */
  function TypeName(v: Value): (r: string)
    ensures v.JNum? ==> (r == "int" <==> -MaxInt - 1 <= v.n <= MaxInt)
    ensures v.JNum? ==> (r == "long" <==> !(-MaxInt - 1 <= v.n <= MaxInt))
    ensures !v.JNum? ==> r != "int" && r != "long"
  {
    match v
    case JNull => "NoneType"
    case JBool(_) => "bool"
    case JNum(n) => if -MaxInt - 1 <= n <= MaxInt then "int" else "long"
    case JStr(_) => "unicode"
    case JArr(_) => "list"
    case JObj(_) => "dict"
  }

  // ---------------------------------------------------------------------------
  // str.lower(), on the ASCII letters

  predicate IsUpper(c: char) { 'A' <= c <= 'Z' }

  function LowerChar(c: char): char
  {
    if IsUpper(c) then (c as int + 32) as char else c
  }

  /** Two characters that differ at most in ASCII case. */
  predicate SameLetterIgnoringCase(a: char, b: char)
  {
    a == b || (IsUpper(a) && b as int == a as int + 32) || (IsUpper(b) && a as int == b as int + 32)
  }

  /** Two strings that differ at most in the case of their letters. */
  predicate SameIgnoringCase(s: string, t: string)
  {
    |s| == |t| && forall i :: 0 <= i < |s| ==> SameLetterIgnoringCase(s[i], t[i])
  }

  function Lower(s: string): (r: string)
    ensures |r| == |s|
    ensures forall i :: 0 <= i < |r| ==> !IsUpper(r[i]) && SameLetterIgnoringCase(s[i], r[i])
  {
    if s == [] then [] else [LowerChar(s[0])] + Lower(s[1..])
  }

  /** Lower-casing identifies exactly the strings that differ only in case; so a lower-cased
      session name equals "data_new" for every spelling of it and for no other string. */
  lemma {:induction false} LowerCaseInsensitive(s: string, t: string)
    ensures Lower(s) == Lower(t) <==> SameIgnoringCase(s, t)
  {
    if s != [] && t != [] {
      LowerCaseInsensitive(s[1..], t[1..]);
      if Lower(s) == Lower(t) {
        assert Lower(s)[1..] == Lower(s[1..]);
        assert Lower(t)[1..] == Lower(t[1..]);
        assert LowerChar(s[0]) == LowerChar(t[0]);
        forall i | 0 <= i < |s|
          ensures SameLetterIgnoringCase(s[i], t[i])
        {
          if i > 0 {
            assert s[i] == s[1..][i - 1] && t[i] == t[1..][i - 1];
          }
        }
      }
      if SameIgnoringCase(s, t) {
        assert SameIgnoringCase(s[1..], t[1..]) by {
          forall i | 0 <= i < |s| - 1
            ensures SameLetterIgnoringCase(s[1..][i], t[1..][i])
          {
            assert s[1..][i] == s[i + 1] && t[1..][i] == t[i + 1];
          }
        }
        assert SameLetterIgnoringCase(s[0], t[0]);
      }
    } else if s == [] && t != [] {
      assert Lower(t) != [];
    } else if s != [] && t == [] {
      assert Lower(s) != [];
    }
  }

  /** Lower-casing twice changes nothing further. */
  lemma {:induction false} LowerIdempotent(s: string)
    ensures Lower(Lower(s)) == Lower(s)
  {
    if s != [] {
      LowerIdempotent(s[1..]);
      assert Lower(s)[0] == LowerChar(s[0]);
      assert Lower(s)[1..] == Lower(s[1..]);
    }
  }

  // ---------------------------------------------------------------------------
  // str(n) for a natural number, and its inverse

  function DigitChar(d: nat): char
    requires d < 10
  {
    ('0' as int + d) as char
  }

  predicate IsDigit(c: char) { '0' <= c <= '9' }

  /** Decimal notation of `n`, most significant digit first, without leading zeros. */
  function NatToString(n: nat): (r: string)
    ensures |r| > 0
    ensures forall i :: 0 <= i < |r| ==> IsDigit(r[i])
    ensures |r| > 1 ==> r[0] != '0'
  {
    if n < 10 then [DigitChar(n)] else NatToString(n / 10) + [DigitChar(n % 10)]
  }

  /** The number a string of digits denotes. */
  function DigitsValue(s: string): int
    requires forall i :: 0 <= i < |s| ==> IsDigit(s[i])
  {
    if s == [] then 0
    else 10 * DigitsValue(s[..|s| - 1]) + (s[|s| - 1] as int - '0' as int)
  }

  /** Reading back `str(n)` gives `n`. */
  lemma {:induction false} NatToStringRoundTrip(n: nat)
    ensures DigitsValue(NatToString(n)) == n
  {
    if n >= 10 {
      NatToStringRoundTrip(n / 10);
      var r := NatToString(n);
      assert r[..|r| - 1] == NatToString(n / 10);
    }
  }

  /** Different numbers have different decimal notations. */
  lemma NatToStringInjective(n: nat, m: nat)
    requires NatToString(n) == NatToString(m)
    ensures n == m
  {
    NatToStringRoundTrip(n);
    NatToStringRoundTrip(m);
  }
}
