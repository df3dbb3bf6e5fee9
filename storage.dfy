/**
 * The 'webpage' flavour of the `Storage` class (src/www/action.js:306-361):
 * `window.localStorage` holds strings only, so `set` writes `String(value)`
 * and `get` reads each key back, falls back to the default when nothing non
 * empty is stored, and turns the text back into a boolean or a number where
 * it looks like one.
 */
module Storage {
  import opened Charset
  import Hex

  /** A settings value: what `get` hands back and `set` accepts. */
  datatype Value =
    | Bool(b: bool)
    | Int(i: int)
    | Float(text: string)   // a `parseFloat` result, kept as the text it was parsed from
    | Str(s: string)

  datatype Option<T> = None | Some(value: T)

  /** The number of leading ASCII digits of `s`. */
  function DigitRun(s: string): (m: nat)
    ensures m <= |s|
    ensures forall i :: 0 <= i < m ==> IsDigit(s[i])
    ensures m == |s| || !IsDigit(s[m])
  {
    if |s| > 0 && IsDigit(s[0]) then 1 + DigitRun(s[1..]) else 0
  }

  /** `s` without the optional leading sign `[+-]?`. */
  function Unsigned(s: string): (t: string)
    ensures |t| <= |s|
  {
    if |s| > 0 && (s[0] == '+' || s[0] == '-') then s[1..] else s
  }

  /** `(?:[Ee][+-]?\d+)`, the whole of `e`. */
  predicate IsExponent(e: string) {
    && |e| >= 2
    && (e[0] == 'E' || e[0] == 'e')
    && var f := Unsigned(e[1..]); |f| >= 1 && DigitRun(f) == |f|
  }

  /** `/^[+-]?\d+(?:[Ee][+-]?\d+)?$/.test(s)` */
  predicate IsIntText(s: string) {
    var t := Unsigned(s);
    var m := DigitRun(t);
    m >= 1 && (m == |t| || IsExponent(t[m..]))
  }

  /** `/^[+-]?\d\.\d+(?:[Ee][+-]?\d+)?$/.test(s)` */
  predicate IsFloatText(s: string) {
    var t := Unsigned(s);
    && |t| >= 3 && IsDigit(t[0]) && t[1] == '.'
    && var r := t[2..]; var m := DigitRun(r); m >= 1 && (m == |r| || IsExponent(r[m..]))
  }

  /** The value of one decimal digit. */
  function DigitOf(ch: char): (d: nat)
    requires IsDigit(ch)
    ensures d < 10
  {
    ch as int - '0' as int
  }

  /** The number a string of decimal digits denotes, most significant digit first. */
  function DecimalValue(d: string): nat
    requires forall i :: 0 <= i < |d| ==> IsDigit(d[i])
  {
    if d == [] then 0 else 10 * DecimalValue(d[..|d| - 1]) + DigitOf(d[|d| - 1])
  }

  /**
   * `parseInt(s)` on a string the integer regex accepts: the sign, then the
   * leading digits; parsing stops at the exponent, so "1e5" gives 1.
   */
  function ParseInt(s: string): (n: int)
    requires IsIntText(s)
    ensures n < 0 ==> s[0] == '-'
    ensures s[0] == '-' ==> n <= 0
  {
    var t := Unsigned(s);
    var magnitude: int := DecimalValue(t[..DigitRun(t)]);
    if |s| > 0 && s[0] == '-' then -magnitude else magnitude
  }

  /** The conversions of src/www/action.js:329-337 on a stored string. */
  function Coerce(s: string): (v: Value)
    ensures v.Str? ==> v == Str(s)
    ensures v.Int? ==> IsIntText(s) && v == Int(ParseInt(s))
  {
    if s == "true" then Bool(true)
    else if s == "false" then Bool(false)
    else if IsFloatText(s) then Float(s)
    else if IsIntText(s) then Int(ParseInt(s))
    else Str(s)
  }

  /** Float text has a single leading digit before its point, so it is never integer text. */
  lemma FloatTextIsNotInt(s: string)
    ensures IsFloatText(s) ==> DigitRun(Unsigned(s)) == 1 && !IsIntText(s)
  {
    if IsFloatText(s) {
      var t := Unsigned(s);
      assert t[1..][0] == '.';
      assert DigitRun(t) == 1;
    }
  }

  /** Integer text is never float text, nor one of the two boolean words. */
  lemma IntTextIsNotFloat(s: string)
    requires IsIntText(s)
    ensures !IsFloatText(s) && s != "true" && s != "false"
  {
    FloatTextIsNotInt(s);
  }

  /**
   * The four outcomes of `get`'s conversion, in the forward direction:
   * `'true'` and `'false'` become booleans, integer text becomes `parseInt`
   * of it, float text is recognised, and any other text is kept as it is.
   */
  lemma CoerceCases(s: string)
    ensures s == "true" ==> Coerce(s) == Bool(true)
    ensures s == "false" ==> Coerce(s) == Bool(false)
    ensures IsIntText(s) ==> Coerce(s) == Int(ParseInt(s))
    ensures IsFloatText(s) ==> Coerce(s) == Float(s)
    ensures !IsFloatText(s) && !IsIntText(s) && s != "true" && s != "false" ==> Coerce(s) == Str(s)
  {
    if IsIntText(s) {
      IntTextIsNotFloat(s);
    }
    if IsFloatText(s) {
      assert s != "true" && s != "false" by {
        assert Unsigned("true") == "true" && Unsigned("false") == "false";
      }
    }
  }

  /** The decimal digit for a value below ten. */
  function DecimalDigit(d: nat): (ch: char)
    requires d < 10
    ensures IsDigit(ch) && DigitOf(ch) == d
  {
    ('0' as int + d) as char
  }

  /** `String(n)` for a non-negative integer: its decimal digits, no leading zero. */
  function DecimalText(n: nat): (s: string)
    ensures 1 <= |s| && forall i :: 0 <= i < |s| ==> IsDigit(s[i])
  {
    if n < 10 then [DecimalDigit(n)] else DecimalText(n / 10) + [DecimalDigit(n % 10)]
  }

  /** `String(value)`: what `localStorage.setItem(key, value)` stores. */
  function Stringify(v: Value): (s: string)
    ensures v.Bool? ==> Coerce(s) == v
    ensures v.Int? ==> |s| >= 1 && (s[0] == '-' <==> v.i < 0)
  {
    match v
    case Bool(b) => if b then "true" else "false"
    case Int(i) => if i < 0 then "-" + DecimalText(-i) else DecimalText(i)
    case Float(text) => text
    case Str(s) => s
  }

  /**
   * One key of `get(defaults)`: `getItem(key) || defaults[key]`, so a missing
   * or empty entry gives the default; a string is then coerced, whichever of
   * the two it came from.
   */
  function Lookup(items: map<string, string>, key: string, default: Value): (v: Value)
    ensures key in items && items[key] != "" ==> v == Coerce(items[key])
  {
    var raw := if key in items && items[key] != "" then Str(items[key]) else default;
    if raw.Str? then Coerce(raw.s) else raw
  }

  /** `window.localStorage`, as the map from keys to stored strings. */
  class Store {
    var items: map<string, string>

    constructor (initial: map<string, string>)
      ensures items == initial
    {
      items := initial;
    }

    /**
     * `get(defaults, callback)`, with the callback's argument as the result:
     * one entry per key of `defaults`; with no defaults (`null`), the whole
     * store, uncoerced.
     */
    method Get(defaults: Option<map<string, Value>>) returns (result: map<string, Value>)
      ensures defaults.Some? ==> result == map k | k in defaults.value :: Lookup(items, k, defaults.value[k])
      ensures defaults.None? ==> result == map k | k in items :: Str(items[k])
    {
      if defaults.None? {
        return map k | k in items :: Str(items[k]);
      }
      var pending := defaults.value.Keys;
      result := map[];
      while pending != {}
        invariant pending <= defaults.value.Keys
        invariant result == map k | k in defaults.value.Keys - pending :: Lookup(items, k, defaults.value[k])
        decreases |pending|
      {
        var key :| key in pending;
        result := result[key := Lookup(items, key, defaults.value[key])];
        pending := pending - {key};
      }
      assert defaults.value.Keys - pending == defaults.value.Keys;
    }

    /** `set(items, callback)`: every key written as `String(value)`, other keys kept. */
    method Set(values: map<string, Value>)
      modifies this
      ensures items == old(items) + map k | k in values :: Stringify(values[k])
    {
      var pending := values.Keys;
      while pending != {}
        invariant pending <= values.Keys
        invariant items == old(items) + map k | k in values.Keys - pending :: Stringify(values[k])
        decreases |pending|
      {
        var key :| key in pending;
        items := items[key := Stringify(values[key])];
        pending := pending - {key};
      }
      assert values.Keys - pending == values.Keys;
    }

    /** `clear(callback)`: the store is emptied. */
    method Clear()
      modifies this
      ensures items == map[]
    {
      items := map[];
    }
  }

  /** Nothing non-empty stored under `key`: `get` gives the default, a string default coerced. */
  lemma LookupFallsBack(items: map<string, string>, key: string, default: Value)
    requires key !in items || items[key] == ""
    ensures default.Str? ==> Lookup(items, key, default) == Coerce(default.s)
    ensures !default.Str? ==> Lookup(items, key, default) == default
  {
  }

  /** `parseInt` inverts `String` on integers. */
  lemma {:induction false} DecimalRoundTrip(n: nat)
    ensures DecimalValue(DecimalText(n)) == n
  {
    if n >= 10 {
      DecimalRoundTrip(n / 10);
      var s := DecimalText(n);
      assert s[..|s| - 1] == DecimalText(n / 10);
    }
  }

  /** A run made only of digits is as long as its string. */
  lemma {:induction false} AllDigitsRun(s: string)
    requires forall i :: 0 <= i < |s| ==> IsDigit(s[i])
    ensures DigitRun(s) == |s|
  {
    if |s| > 0 {
      AllDigitsRun(s[1..]);
    }
  }

  /** Text whose unsigned part is all digits is integer text, and not float text. */
  lemma DigitsAreIntText(s: string)
    requires |Unsigned(s)| >= 1 && forall i :: 0 <= i < |Unsigned(s)| ==> IsDigit(Unsigned(s)[i])
    ensures IsIntText(s) && !IsFloatText(s)
    ensures Unsigned(s)[..DigitRun(Unsigned(s))] == Unsigned(s)
  {
    var t := Unsigned(s);
    AllDigitsRun(t);
    if |t| >= 2 {
      assert IsDigit(t[1]);
    }
  }

  /** An optional minus sign followed by digits is read back as that integer. */
  lemma SignedDigitsCoerce(sign: string, digits: string)
    requires sign == "" || sign == "-"
    requires |digits| >= 1 && forall i :: 0 <= i < |digits| ==> IsDigit(digits[i])
    ensures Coerce(sign + digits) == Int(if sign == "-" then -(DecimalValue(digits) as int) else DecimalValue(digits))
  {
    var s := sign + digits;
    assert Unsigned(s) == digits by {
      if sign == "-" {
        assert s[1..] == digits;
      }
    }
    DigitsAreIntText(s);
    assert s != "true" && s != "false" by {
      assert IsDigit(s[|s| - 1]);
    }
  }

  /** A decimal text is read back as the integer it was written from. */
  lemma IntRoundTrip(n: int)
    ensures Coerce(Stringify(Int(n))) == Int(n)
  {
    var m: nat := if n < 0 then -n else n;
    DecimalRoundTrip(m);
    if n < 0 {
      SignedDigitsCoerce("-", DecimalText(m));
    } else {
      SignedDigitsCoerce("", DecimalText(m));
      assert "" + DecimalText(m) == DecimalText(m);
    }
  }

  /** The values `get` returns unchanged from what `set` stored: booleans, integers and plain, non-empty text. */
  predicate RoundTrips(v: Value) {
    v.Bool? || v.Int? || (v.Str? && v.s != "" && Coerce(v.s) == Str(v.s))
  }

  /** What `set` stores, `get` gives back, for every value that round-trips. */
  lemma SetThenLookup(before: map<string, string>, values: map<string, Value>, key: string, default: Value)
    requires key in values && RoundTrips(values[key])
    ensures Lookup(before + map k | k in values :: Stringify(values[k]), key, default) == values[key]
  {
    var after := before + map k | k in values :: Stringify(values[k]);
    assert after[key] == Stringify(values[key]);
    match values[key]
    case Bool(b) =>
    case Int(i) =>
      IntRoundTrip(i);
      if i < 0 {
        assert after[key][0] == '-';
      }
    case Str(s) =>
    case Float(_) =>
  }

  /**
   * A string of digits is not kept as text: sixteen zeros, a salt
   * `randomChars(16)` can produce, come back as the number 0.
   */
  lemma DigitsComeBackAsNumber()
    ensures Coerce(Hex.Zeros(16)) == Int(0)
    ensures Lookup(map["masterSalt" := Hex.Zeros(16)], "masterSalt", Str("salt_not_set")) == Int(0)
  {
    var s := Hex.Zeros(16);
    ZerosValue(s);
    SignedDigitsCoerce("", s);
    assert "" + s == s;
  }

  lemma {:induction false} ZerosValue(s: string)
    requires forall i :: 0 <= i < |s| ==> s[i] == '0'
    ensures DecimalValue(s) == 0
  {
    if |s| > 0 {
      ZerosValue(s[..|s| - 1]);
    }
  }

  /** `parseInt` ignores the exponent the integer regex lets through. */
  lemma ParseIntStopsAtExponent()
    ensures IsIntText("1e5") && Coerce("1e5") == Int(1)
    ensures IsIntText("-12") && Coerce("-12") == Int(-12)
  {
    assert DigitRun("1e5") == 1 by { assert DigitRun("e5") == 0; }
    assert "1e5"[1..] == "e5";
    assert DigitRun("5") == 1;
    assert Unsigned("-12") == "12";
    assert DigitRun("12") == 2 by { assert "12"[1..] == "2"; assert DigitRun("2") == 1; }
    assert "12"[..2] == "12";
    assert "12"[..1] == "1";
  }
}
