/**
 * The character classes a generated password may draw from, and the ordered
 * alphabet `sha` builds from the enabled ones (src/www/action.js:55-72), next
 * to the classes `enforceConstraints` tests for (src/www/action.js:157-160).
 */
module Charset {

  /** The four class flags of a settings object. */
  datatype CharClasses = CharClasses(lowercase: bool, uppercase: bool, number: bool, symbol: bool)

  /** The flags of `hexSettings`: no class enabled, so `sha` produces a hex dump. */
  const NoClasses := CharClasses(false, false, false, false)

  /** The flags of `defaultSettings`: every class enabled. */
  const AllClasses := CharClasses(true, true, true, true)

  /** The test at src/www/action.js:55-58. */
  predicate AnyEnabled(c: CharClasses) {
    c.lowercase || c.uppercase || c.number || c.symbol
  }

  /** `/[a-z]/` */
  predicate IsLower(ch: char) { 'a' <= ch <= 'z' }

  /** `/[A-Z]/` */
  predicate IsUpper(ch: char) { 'A' <= ch <= 'Z' }

  /** `/\d/`: JavaScript's `\d` is the ASCII digits only. */
  predicate IsDigit(ch: char) { '0' <= ch <= '9' }

  /**
   * The symbol class of the regex at src/www/action.js:160. Its members are
   * `!` to `/` (the `,-.` inside it is a range of the same three characters),
   * `:` to `@`, `[` to the backquote (`\\` and `\]` are backslash and `]`)
   * and `{` to `~`: every printable ASCII character that is not a letter or
   * a digit, backslash included.
   */
  predicate IsSymbol(ch: char) {
    ('!' <= ch <= '/') || (':' <= ch <= '@') || ('[' <= ch <= '`') || ('{' <= ch <= '~')
  }

  /**
   * The symbol class is the rest of printable ASCII: a character other than
   * space is a symbol exactly when it is not a letter or a digit.
   */
  lemma SymbolsArePunctuation(ch: char)
    ensures IsSymbol(ch) <==> 33 <= ch as int <= 126 && !IsLower(ch) && !IsUpper(ch) && !IsDigit(ch)
  {
  }

  /** Whether `ch` belongs to one of the enabled classes and is one the alphabet offers. */
  predicate InAlphabet(c: CharClasses, ch: char) {
    || (c.symbol && IsSymbol(ch) && ch != '\\')
    || (c.number && IsDigit(ch))
    || (c.uppercase && IsUpper(ch))
    || (c.lowercase && IsLower(ch))
  }

  /** Strictly increasing code points: sorted, and so without duplicates. */
  predicate Increasing(s: string) {
    forall i, j :: 0 <= i < j < |s| ==> s[i] < s[j]
  }

  /** The characters with code points `lo` up to, not including, `hi`. */
  function CodeRange(lo: nat, hi: nat): (s: string)
    requires lo <= hi <= 127
    ensures |s| == hi - lo
    ensures forall i :: 0 <= i < |s| ==> s[i] as int == lo + i
  {
    seq(hi - lo, i requires 0 <= i < hi - lo => (lo + i) as char)
  }

  // The seven fragments appended at src/www/action.js:64-70, in that order.

  /** `'!"#$%&\'()*+,-./'` */
  const SymbolsLow := "!\"#$%&'()*+,-./"
  /** `'0123456789'` */
  const Digits := "0123456789"
  /** `':;<=>?@'` */
  const SymbolsMid := ":;<=>?@"
  /** `'ABCDEFGHIJKLMNOPQRSTUVWXYZ'` */
  const Upper := "ABCDEFGHIJKLMNOPQRSTUVWXYZ"
  /** The JavaScript literal `'[\]^_`'`: `\]` is an escaped `]`, so there is no backslash. */
  const SymbolsBracket := "[]^_`"
  /** `'abcdefghijklmnopqrstuvwxyz'` */
  const Lower := "abcdefghijklmnopqrstuvwxyz"
  /** `'{|}~'` */
  const SymbolsHigh := "{|}~"

  // Each fragment is a run of code points; the bracket one skips 92, the backslash.

  lemma SymbolsLowRange() ensures SymbolsLow == CodeRange(33, 48) {}

  lemma UpperRange() ensures Upper == CodeRange(65, 91) {}

  lemma LowerRange() ensures Lower == CodeRange(97, 123) {}

  lemma DigitsRange() ensures Digits == CodeRange(48, 58) {}

  lemma SymbolsMidRange() ensures SymbolsMid == CodeRange(58, 65) {}

  lemma SymbolsBracketRanges()
    ensures SymbolsBracket == CodeRange(91, 92) + CodeRange(93, 97)
    ensures '\\' !in SymbolsBracket
  {
  }

  lemma SymbolsHighRange() ensures SymbolsHigh == CodeRange(123, 127) {}

  lemma FragmentRanges()
    ensures SymbolsLow == CodeRange(33, 48)
    ensures Upper == CodeRange(65, 91)
    ensures Lower == CodeRange(97, 123)
    ensures Digits == CodeRange(48, 58)
    ensures SymbolsMid == CodeRange(58, 65)
    ensures SymbolsBracket == CodeRange(91, 92) + CodeRange(93, 97)
    ensures SymbolsHigh == CodeRange(123, 127)
  {
    SymbolsLowRange();
    UpperRange();
    LowerRange();
    DigitsRange();
    SymbolsMidRange();
    SymbolsBracketRanges();
    SymbolsHighRange();
  }

  function Part(on: bool, fragment: string): string {
    if on then fragment else ""
  }

  /**
   * The alphabet `chars` of src/www/action.js:62-72: the enabled fragments
   * concatenated in the order the source appends them.
   */
  function Alphabet(c: CharClasses): (chars: string)
    ensures |chars| == (if c.symbol then 31 else 0) + (if c.number then 10 else 0)
                     + (if c.uppercase then 26 else 0) + (if c.lowercase then 26 else 0)
    ensures AnyEnabled(c) <==> |chars| > 0
  {
    Part(c.symbol, SymbolsLow) + Part(c.number, Digits) + Part(c.symbol, SymbolsMid)
    + Part(c.uppercase, Upper) + Part(c.symbol, SymbolsBracket)
    + Part(c.lowercase, Lower) + Part(c.symbol, SymbolsHigh)
  }

  /**
   * Builds the alphabet step by step as src/www/action.js:62-70 does. The
   * result is in strictly increasing code-point order (so free of duplicates)
   * and holds exactly the characters of the enabled classes.
   */
  method BuildAlphabet(c: CharClasses) returns (chars: string)
    ensures chars == Alphabet(c)
    ensures Increasing(chars)
    ensures forall ch :: ch in chars <==> InAlphabet(c, ch)
  {
    chars := "";
    if c.symbol    { chars := chars + SymbolsLow; }
    assert chars == AlphabetAfter(c, 1);
    if c.number    { chars := chars + Digits; }
    assert chars == AlphabetAfter(c, 2);
    if c.symbol    { chars := chars + SymbolsMid; }
    assert chars == AlphabetAfter(c, 3);
    if c.uppercase { chars := chars + Upper; }
    assert chars == AlphabetAfter(c, 4);
    if c.symbol    { chars := chars + SymbolsBracket; }
    assert chars == AlphabetAfter(c, 5);
    if c.lowercase { chars := chars + Lower; }
    assert chars == AlphabetAfter(c, 6);
    if c.symbol    { chars := chars + SymbolsHigh; }
    assert chars == AlphabetAfter(c, 7);
    AlphabetIsAfter(c);
    AlphabetOrdered(c);
  }

  // The proof follows the appends one at a time: after the k-th append every
  // code point is below Top(k), and the k-th fragment lies in [Top(k-1), Top(k)).

  function Top(k: nat): nat
    requires k <= 7
  {
    if k == 0 then 33 else if k == 1 then 48 else if k == 2 then 58 else if k == 3 then 65
    else if k == 4 then 91 else if k == 5 then 97 else if k == 6 then 123 else 127
  }

  function Fragment(k: nat): string
    requires 1 <= k <= 7
  {
    if k == 1 then SymbolsLow else if k == 2 then Digits else if k == 3 then SymbolsMid
    else if k == 4 then Upper else if k == 5 then SymbolsBracket else if k == 6 then Lower else SymbolsHigh
  }

  function Enables(c: CharClasses, k: nat): bool
    requires 1 <= k <= 7
  {
    if k == 2 then c.number else if k == 4 then c.uppercase else if k == 6 then c.lowercase else c.symbol
  }

  /** The value of `chars` after the first `k` appends. */
  function AlphabetAfter(c: CharClasses, k: nat): string
    requires k <= 7
  {
    if k == 0 then "" else AlphabetAfter(c, k - 1) + Part(Enables(c, k), Fragment(k))
  }

  /** Whether the first `k` appends offer `ch`. */
  predicate OfferedBy(c: CharClasses, k: nat, ch: char)
    requires k <= 7
  {
    k > 0 && (OfferedBy(c, k - 1, ch) || (Enables(c, k) && Top(k - 1) <= ch as int < Top(k) && ch != '\\'))
  }

  /** Every code point in `s` is below `bound`. */
  predicate Below(s: string, bound: nat) {
    forall i :: 0 <= i < |s| ==> s[i] as int < bound
  }

  /** A fragment sits in the slot from `lo` to `hi` when it is increasing and holds those code points, backslash excepted. */
  predicate InSlot(f: string, lo: nat, hi: nat) {
    && Increasing(f) && Below(f, hi)
    && (forall i :: 0 <= i < |f| ==> lo <= f[i] as int)
    && (forall ch :: ch in f <==> lo <= ch as int < hi && ch != '\\')
  }

  lemma RangeInSlot(lo: nat, hi: nat)
    requires lo <= hi <= 127 && !(lo <= 92 < hi)
    ensures InSlot(CodeRange(lo, hi), lo, hi)
  {
    var f := CodeRange(lo, hi);
    forall ch | lo <= ch as int < hi ensures ch in f {
      assert f[ch as int - lo] == ch;
    }
  }

  lemma BracketInSlot()
    ensures InSlot(SymbolsBracket, 91, 97)
  {
    SymbolsBracketRanges();
    var a, b := CodeRange(91, 92), CodeRange(93, 97);
    forall ch | 91 <= ch as int < 97 && ch != '\\' ensures ch in a + b {
      if ch as int == 91 {
        assert (a + b)[0] == ch;
      } else {
        assert (a + b)[ch as int - 92] == ch;
      }
    }
  }

  /** Each fragment is increasing and holds the code points of its slot, backslash excepted. */
  lemma FragmentInSlot(k: nat)
    requires 1 <= k <= 7
    ensures InSlot(Fragment(k), Top(k - 1), Top(k))
  {
    if k == 1 {
      SymbolsLowRange();
      RangeInSlot(33, 48);
    } else if k == 2 {
      DigitsRange();
      RangeInSlot(48, 58);
    } else if k == 3 {
      SymbolsMidRange();
      RangeInSlot(58, 65);
    } else if k == 4 {
      UpperRange();
      RangeInSlot(65, 91);
    } else if k == 5 {
      BracketInSlot();
    } else if k == 6 {
      LowerRange();
      RangeInSlot(97, 123);
    } else {
      SymbolsHighRange();
      RangeInSlot(123, 127);
    }
  }

  lemma {:induction false} AlphabetAfterOrdered(c: CharClasses, k: nat)
    requires k <= 7
    ensures Increasing(AlphabetAfter(c, k)) && Below(AlphabetAfter(c, k), Top(k))
    ensures forall ch :: ch in AlphabetAfter(c, k) <==> OfferedBy(c, k, ch)
  {
    if k > 0 {
      AlphabetAfterOrdered(c, k - 1);
      FragmentInSlot(k);
      AppendInSlot(AlphabetAfter(c, k - 1), Fragment(k), Enables(c, k), Top(k - 1), Top(k));
    }
  }

  /** Appending a fragment (or nothing) above everything so far keeps the string increasing. */
  lemma AppendInSlot(p: string, f: string, on: bool, lo: nat, hi: nat)
    requires Increasing(p) && Below(p, lo) && lo <= hi && InSlot(f, lo, hi)
    ensures Increasing(p + Part(on, f)) && Below(p + Part(on, f), hi)
    ensures forall ch :: ch in p + Part(on, f) <==> ch in p || (on && lo <= ch as int < hi && ch != '\\')
  {
    var q := p + Part(on, f);
    forall ch ensures ch in q <==> ch in p || ch in Part(on, f) {
    }
  }

  lemma AlphabetIsAfter(c: CharClasses)
    ensures Alphabet(c) == AlphabetAfter(c, 7)
  {
    assert AlphabetAfter(c, 1) == Part(c.symbol, SymbolsLow);
    assert AlphabetAfter(c, 2) == AlphabetAfter(c, 1) + Part(c.number, Digits);
    assert AlphabetAfter(c, 3) == AlphabetAfter(c, 2) + Part(c.symbol, SymbolsMid);
    assert AlphabetAfter(c, 4) == AlphabetAfter(c, 3) + Part(c.uppercase, Upper);
    assert AlphabetAfter(c, 5) == AlphabetAfter(c, 4) + Part(c.symbol, SymbolsBracket);
    assert AlphabetAfter(c, 6) == AlphabetAfter(c, 5) + Part(c.lowercase, Lower);
    assert AlphabetAfter(c, 7) == AlphabetAfter(c, 6) + Part(c.symbol, SymbolsHigh);
  }

  /**
   * For every flag combination the alphabet is strictly increasing and its
   * members are exactly the characters of the enabled classes, except that
   * the symbol class contributes no backslash.
   */
  lemma AlphabetOrdered(c: CharClasses)
    ensures Increasing(Alphabet(c))
    ensures forall ch :: ch in Alphabet(c) <==> InAlphabet(c, ch)
  {
    AlphabetIsAfter(c);
    AlphabetAfterOrdered(c, 7);
    forall ch ensures OfferedBy(c, 7, ch) <==> InAlphabet(c, ch) {
      OfferedByAll(c, ch);
    }
  }

  lemma OfferedByAll(c: CharClasses, ch: char)
    ensures OfferedBy(c, 7, ch) <==> InAlphabet(c, ch)
  {
    var k := ch as int;
    assert OfferedBy(c, 1, ch) <==> c.symbol && 33 <= k < 48;
    assert OfferedBy(c, 2, ch) <==> OfferedBy(c, 1, ch) || (c.number && 48 <= k < 58);
    assert OfferedBy(c, 3, ch) <==> OfferedBy(c, 2, ch) || (c.symbol && 58 <= k < 65);
    assert OfferedBy(c, 4, ch) <==> OfferedBy(c, 3, ch) || (c.uppercase && 65 <= k < 91);
    assert OfferedBy(c, 5, ch) <==> OfferedBy(c, 4, ch) || (c.symbol && 91 <= k < 97 && k != 92);
    assert OfferedBy(c, 6, ch) <==> OfferedBy(c, 5, ch) || (c.lowercase && 97 <= k < 123);
    assert OfferedBy(c, 7, ch) <==> OfferedBy(c, 6, ch) || (c.symbol && 123 <= k < 127);
  }

  /**
   * With every class enabled the alphabet holds 93 characters, not the 94
   * printable ones the comment at src/www/action.js:40 counts: it is every
   * code point from 33 to 126 except the backslash, which the symbol regex
   * nevertheless accepts.
   */
  lemma FullAlphabet()
    ensures |Alphabet(AllClasses)| == 93
    ensures Alphabet(AllClasses) == CodeRange(33, 92) + CodeRange(93, 127)
    ensures '\\' !in Alphabet(AllClasses) && IsSymbol('\\')
  {
    AlphabetOrdered(AllClasses);
    FullAlphabetRanges();
  }

  lemma FullAlphabetRanges()
    ensures Alphabet(AllClasses) == CodeRange(33, 92) + CodeRange(93, 127)
  {
    var lowHalf := CodeRange(33, 92);
    var highHalf := CodeRange(93, 127);
    assert SymbolsLow + Digits + SymbolsMid + Upper + CodeRange(91, 92) == lowHalf by {
      SymbolsLowRange();
      UpperRange();
      DigitsRange();
      SymbolsMidRange();
      RangeSplit(33, 48, 58);
      RangeSplit(33, 58, 65);
      RangeSplit(33, 65, 91);
      RangeSplit(33, 91, 92);
    }
    assert CodeRange(93, 97) + Lower + SymbolsHigh == highHalf by {
      LowerRange();
      SymbolsHighRange();
      RangeSplit(93, 97, 123);
      RangeSplit(93, 123, 127);
    }
    SymbolsBracketRanges();
    assert Alphabet(AllClasses) == SymbolsLow + Digits + SymbolsMid + Upper + SymbolsBracket + Lower + SymbolsHigh;
  }

  /** Two adjacent runs of code points make one run. */
  lemma RangeSplit(lo: nat, mid: nat, hi: nat)
    requires lo <= mid <= hi <= 127
    ensures CodeRange(lo, mid) + CodeRange(mid, hi) == CodeRange(lo, hi)
  {
    var a, b := CodeRange(lo, mid) + CodeRange(mid, hi), CodeRange(lo, hi);
    assert forall i :: 0 <= i < |a| ==> a[i] == b[i];
  }
}
