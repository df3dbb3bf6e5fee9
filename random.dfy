/**
 * `randomChars` and `randomHex` (src/www/action.js:177-194). `Math.random()`
 * is not modelled; its results are passed in as draws, reals in [0, 1), one
 * draw per generated character.
 */
module Random {
  import opened Hex

  /** What `Math.random()` may return. */
  predicate IsDraw(u: real) {
    0.0 <= u < 1.0
  }

  predicate AreDraws(draws: seq<real>) {
    forall i :: 0 <= i < |draws| ==> IsDraw(draws[i])
  }

  /** A printable ASCII character other than space: code points 33 to 126. */
  predicate IsPrintable(ch: char) {
    33 <= ch as int <= 126
  }

  /**
   * `String.fromCharCode(33 + 94 * u | 0)`: `| 0` truncates the non-negative
   * sum towards zero, that is, takes its floor.
   */
  function PrintableOf(u: real): (ch: char)
    requires IsDraw(u)
    ensures IsPrintable(ch)
  {
    (33.0 + 94.0 * u).Floor as char
  }

  /** `(0x10 * u | 0).toString(16)`: one lower-case hexadecimal digit. */
  function HexDigitOf(u: real): (ch: char)
    requires IsDraw(u)
    ensures IsHexDigit(ch)
  {
    Digit((16.0 * u).Floor)
  }

  /** `randomChars(len)` with `len == |draws|`: one printable character per draw. */
  function RandomChars(draws: seq<real>): (s: string)
    requires AreDraws(draws)
    ensures |s| == |draws|
    ensures forall i :: 0 <= i < |s| ==> IsPrintable(s[i])
  {
    seq(|draws|, i requires 0 <= i < |draws| => PrintableOf(draws[i]))
  }

  /** `randomHex(len)` with `len == |draws|`: one hexadecimal digit per draw. */
  function RandomHex(draws: seq<real>): (s: string)
    requires AreDraws(draws)
    ensures |s| == |draws| && IsHexText(s)
  {
    seq(|draws|, i requires 0 <= i < |draws| => HexDigitOf(draws[i]))
  }

  /** Every printable character is produced by some draw: `randomChars` can yield every such string. */
  lemma PrintableReachable(ch: char)
    requires IsPrintable(ch)
    ensures IsDraw((ch as int - 33) as real / 94.0)
    ensures PrintableOf((ch as int - 33) as real / 94.0) == ch
  {
    var u := (ch as int - 33) as real / 94.0;
    assert 33.0 + 94.0 * u == ch as int as real;
  }

  /** Every hexadecimal digit is produced by some draw. */
  lemma HexDigitReachable(ch: char)
    requires IsHexDigit(ch)
    ensures IsDraw(DigitValue(ch) as real / 16.0)
    ensures HexDigitOf(DigitValue(ch) as real / 16.0) == ch
  {
    var u := DigitValue(ch) as real / 16.0;
    assert 16.0 * u == DigitValue(ch) as real;
  }

  /** The salts `randomChars` can produce are exactly the printable strings of the right length. */
  lemma RandomCharsOnto(s: string)
    requires forall i :: 0 <= i < |s| ==> IsPrintable(s[i])
    ensures AreDraws(seq(|s|, i requires 0 <= i < |s| => (s[i] as int - 33) as real / 94.0))
    ensures RandomChars(seq(|s|, i requires 0 <= i < |s| => (s[i] as int - 33) as real / 94.0)) == s
  {
    var draws := seq(|s|, i requires 0 <= i < |s| => (s[i] as int - 33) as real / 94.0);
    forall i | 0 <= i < |s| ensures IsDraw(draws[i]) && PrintableOf(draws[i]) == s[i] {
      PrintableReachable(s[i]);
    }
  }

  /** The peppers `randomHex` can produce are exactly the hexadecimal texts of the right length. */
  lemma RandomHexOnto(s: string)
    requires IsHexText(s)
    ensures AreDraws(seq(|s|, i requires 0 <= i < |s| => DigitValue(s[i]) as real / 16.0))
    ensures RandomHex(seq(|s|, i requires 0 <= i < |s| => DigitValue(s[i]) as real / 16.0)) == s
  {
    var draws := seq(|s|, i requires 0 <= i < |s| => DigitValue(s[i]) as real / 16.0);
    forall i | 0 <= i < |s| ensures IsDraw(draws[i]) && HexDigitOf(draws[i]) == s[i] {
      HexDigitReachable(s[i]);
    }
  }
}
