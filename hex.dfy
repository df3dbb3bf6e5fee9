/**
 * Hexadecimal text: JavaScript's `Number.prototype.toString(16)` on a
 * non-negative integer, and the `hexPad` helper built on it
 * (src/www/action.js:201-203).
 */
module Hex {

  /** A lower-case hexadecimal digit, as `toString(16)` writes them. */
  predicate IsHexDigit(c: char) {
    '0' <= c <= '9' || 'a' <= c <= 'f'
  }

  /** Every character is a lower-case hexadecimal digit. */
  predicate IsHexText(s: string) {
    forall i :: 0 <= i < |s| ==> IsHexDigit(s[i])
  }

  /** The digit that stands for a value below sixteen. */
  function Digit(d: nat): (c: char)
    requires d < 16
    ensures IsHexDigit(c)
  {
    if d < 10 then ('0' as int + d) as char else ('a' as int + (d - 10)) as char
  }

  /** The value a digit stands for: the inverse of Digit. */
  function DigitValue(c: char): (d: nat)
    requires IsHexDigit(c)
    ensures d < 16 && Digit(d) == c
  {
    if c <= '9' then c as int - '0' as int else c as int - 'a' as int + 10
  }

  /** `n.toString(16)`: the shortest digit string for `n`, "0" for zero. */
  function ToHex(n: nat): (s: string)
    ensures 1 <= |s| && IsHexText(s)
    decreases n
  {
    if n < 16 then [Digit(n)] else ToHex(n / 16) + [Digit(n % 16)]
  }

  /** Sixteen to the power `k`. */
  function Pow16(k: nat): (p: nat)
    ensures p >= 1
  {
    if k == 0 then 1 else 16 * Pow16(k - 1)
  }

  /** Reference definition: the low `len` digits of `n`, most significant first. */
  function LowDigits(n: nat, len: nat): (s: string)
    ensures |s| == len && IsHexText(s)
  {
    if len == 0 then [] else LowDigits(n / 16, len - 1) + [Digit(n % 16)]
  }

  /** The number a digit string denotes, most significant digit first. */
  function Value(s: string): nat
    requires IsHexText(s)
  {
    if s == [] then 0 else 16 * Value(s[..|s| - 1]) + DigitValue(s[|s| - 1])
  }

  /** `'0'.repeat(k)`. */
  function Zeros(k: nat): (s: string)
    ensures |s| == k
  {
    seq(k, _ => '0')
  }

  /**
   * `hexPad(num, len)`: `len - 1` zeros followed by `num.toString(16)`,
   * of which the last `len` characters are kept (`slice(-len)`).
   */
  function HexPad(num: nat, len: nat): (s: string)
    requires len >= 1
    ensures |s| == len && IsHexText(s)
  {
    var padded := Zeros(len - 1) + ToHex(num);
    padded[|padded| - len..]
  }

  /**
   * `hexPad` keeps exactly the low `len` hexadecimal digits of `num`,
   * zero-padded: as a digit string it is `LowDigits`, and its value is
   * `num` modulo sixteen to the `len`.
   */
  lemma HexPadIsLowDigits(num: nat, len: nat)
    requires len >= 1
    ensures HexPad(num, len) == LowDigits(num, len)
    ensures Value(HexPad(num, len)) == num % Pow16(len)
  {
    SuffixOfPadded(Zeros(len - 1), num, len);
    LowDigitsValue(num, len);
  }

  /** A digit stands for the value it was made from. */
  lemma DigitValueOfDigit(d: nat)
    requires d < 16
    ensures DigitValue(Digit(d)) == d
  {
  }

  /**
   * `toString(16)` is the base-16 numeral of `n`: it denotes `n`, and it has
   * no leading zero unless it is the single digit "0".
   */
  lemma {:induction false} ToHexValue(n: nat)
    ensures Value(ToHex(n)) == n
    ensures |ToHex(n)| > 1 ==> ToHex(n)[0] != '0'
    decreases n
  {
    var s := ToHex(n);
    if n < 16 {
      DigitValueOfDigit(n);
      assert s[..0] == [];
    } else {
      ToHexValue(n / 16);
      DigitValueOfDigit(n % 16);
      assert s[..|s| - 1] == ToHex(n / 16);
      assert s[0] == ToHex(n / 16)[0];
      if |ToHex(n / 16)| == 1 {
        assert ToHex(n / 16) == [Digit(n / 16)];
      }
    }
  }

  /** A number that fits in `len` digits comes back unchanged from its padded text. */
  lemma HexPadRoundTrip(num: nat, len: nat)
    requires len >= 1 && num < Pow16(len)
    ensures Value(HexPad(num, len)) == num
  {
    HexPadIsLowDigits(num, len);
    DivModUnique(num, Pow16(len), 0, num);
  }

  /** Every `len`-digit text is `hexPad` of its own value: hexPad reaches all of them. */
  lemma HexPadOfValue(s: string)
    requires |s| >= 1 && IsHexText(s)
    ensures Value(s) < Pow16(|s|)
    ensures HexPad(Value(s), |s|) == s
  {
    ValueBound(s);
    LowDigitsOfValue(s);
    HexPadIsLowDigits(Value(s), |s|);
  }

  /** The last `k` characters of zeros followed by `n.toString(16)` are the low `k` digits of `n`. */
  lemma {:induction false} SuffixOfPadded(z: string, n: nat, k: nat)
    requires forall i :: 0 <= i < |z| ==> z[i] == '0'
    requires k <= |z| + |ToHex(n)|
    ensures (z + ToHex(n))[|z + ToHex(n)| - k..] == LowDigits(n, k)
    decreases n, k
  {
    var s := z + ToHex(n);
    if k > 0 {
      assert s[|s| - k..] == s[|s| - k..|s| - 1] + [s[|s| - 1]];
      if n < 16 {
        assert s == z + [Digit(n)];
        assert s[|s| - k..|s| - 1] == z[|z| - (k - 1)..];
        LowDigitsZero(k - 1);
        assert z[|z| - (k - 1)..] == Zeros(k - 1);
      } else {
        var t := z + ToHex(n / 16);
        assert s == t + [Digit(n % 16)];
        assert s[|s| - k..|s| - 1] == t[|t| - (k - 1)..];
        SuffixOfPadded(z, n / 16, k - 1);
      }
    }
  }

  lemma {:induction false} LowDigitsZero(k: nat)
    ensures LowDigits(0, k) == Zeros(k)
  {
    if k > 0 {
      LowDigitsZero(k - 1);
      assert Zeros(k) == Zeros(k - 1) + ['0'];
    }
  }

  lemma {:induction false} LowDigitsValue(n: nat, len: nat)
    ensures Value(LowDigits(n, len)) == n % Pow16(len)
  {
    if len > 0 {
      var s := LowDigits(n, len);
      assert s[..|s| - 1] == LowDigits(n / 16, len - 1);
      LowDigitsValue(n / 16, len - 1);
      ModOfProduct(n, Pow16(len - 1));
    }
  }

  lemma {:induction false} LowDigitsOfValue(s: string)
    requires IsHexText(s)
    ensures LowDigits(Value(s), |s|) == s
  {
    if s != [] {
      var init, d := s[..|s| - 1], DigitValue(s[|s| - 1]);
      DivModOf(Value(init), d);
      LowDigitsOfValue(init);
      assert s == init + [s[|s| - 1]];
    }
  }

  lemma {:induction false} ValueBound(s: string)
    requires IsHexText(s)
    ensures Value(s) < Pow16(|s|)
  {
    if s != [] {
      ValueBound(s[..|s| - 1]);
    }
  }

  /** Dividing `16 * q + d` by sixteen gives back `q` and `d`. */
  lemma DivModOf(q: nat, d: nat)
    requires d < 16
    ensures (16 * q + d) / 16 == q && (16 * q + d) % 16 == d
  {
  }

  /** Taking `n` modulo `16 * p` keeps its last digit and its quotient by sixteen modulo `p`. */
  lemma ModOfProduct(n: nat, p: nat)
    requires p >= 1
    ensures n % (16 * p) == 16 * ((n / 16) % p) + n % 16
  {
    var q, r := n / 16, n % 16;
    var a, b := q / p, q % p;
    assert q == p * a + b;
    assert n == (16 * p) * a + (16 * b + r);
    assert 0 <= 16 * b + r < 16 * p;
    DivModUnique(n, 16 * p, a, 16 * b + r);
  }

  lemma DivModUnique(n: int, d: int, q: int, r: int)
    requires d > 0 && n == d * q + r && 0 <= r < d
    ensures n % d == r
  {
    var k := q - n / d;
    assert d * k == n % d - r;
  }
}
