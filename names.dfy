/**
 * `camelCase` (src/www/action.js:231-233): `name.replace(/-(\w)/g, ...)`
 * turns every hyphen followed by a word character into that character upper
 * cased, scanning left to right without overlaps.
 */
module Names {

  /** `\w`: an ASCII letter, digit or underscore. */
  predicate IsWordChar(ch: char) {
    'a' <= ch <= 'z' || 'A' <= ch <= 'Z' || '0' <= ch <= '9' || ch == '_'
  }

  /** `toUpperCase` on a word character: only the lower-case letters change. */
  function ToUpper(ch: char): (u: char)
    ensures 'a' <= ch <= 'z' ==> 'A' <= u <= 'Z' && u as int == ch as int - 32
    ensures !('a' <= ch <= 'z') ==> u == ch
    ensures IsWordChar(ch) ==> IsWordChar(u) && !('a' <= u <= 'z')
  {
    if 'a' <= ch <= 'z' then (ch as int - 32) as char else ch
  }

  /** The replacement, one match at a time from the left. */
  function CamelCase(name: string): (r: string)
    ensures |r| <= |name|
    ensures |name| >= 1 && name[0] != '-' ==> |r| >= 1 && r[0] == name[0]
    decreases |name|
  {
    if |name| >= 2 && name[0] == '-' && IsWordChar(name[1]) then [ToUpper(name[1])] + CamelCase(name[2..])
    else if name == [] then []
    else [name[0]] + CamelCase(name[1..])
  }

  /** A name without hyphens is left as it is. */
  lemma {:induction false} NoHyphenUnchanged(name: string)
    requires forall i :: 0 <= i < |name| ==> name[i] != '-'
    ensures CamelCase(name) == name
  {
    if name != [] {
      NoHyphenUnchanged(name[1..]);
    }
  }

  /** Each match removes one character: the hyphen. */
  function Matches(name: string): nat
    decreases |name|
  {
    if |name| >= 2 && name[0] == '-' && IsWordChar(name[1]) then 1 + Matches(name[2..])
    else if name == [] then 0
    else Matches(name[1..])
  }

  lemma {:induction false} CamelCaseLength(name: string)
    ensures |CamelCase(name)| == |name| - Matches(name)
    ensures Matches(name) <= |name| / 2
    decreases |name|
  {
    if |name| >= 2 && name[0] == '-' && IsWordChar(name[1]) {
      CamelCaseLength(name[2..]);
    } else if name != [] {
      CamelCaseLength(name[1..]);
    }
  }

  /**
   * No lower-case letter follows a hyphen in the result: every hyphen that
   * had a word character after it is gone, and what now follows a kept
   * hyphen was never a lower-case letter or has been upper cased.
   */
  lemma {:induction false} NoHyphenBeforeLower(name: string)
    ensures forall i :: 0 <= i < |CamelCase(name)| - 1 && CamelCase(name)[i] == '-' ==>
              !('a' <= CamelCase(name)[i + 1] <= 'z')
    decreases |name|
  {
    var r := CamelCase(name);
    if |name| >= 2 && name[0] == '-' && IsWordChar(name[1]) {
      NoHyphenBeforeLower(name[2..]);
      assert r == [ToUpper(name[1])] + CamelCase(name[2..]);
      forall i | 0 <= i < |r| - 1 && r[i] == '-' ensures !('a' <= r[i + 1] <= 'z') {
        assert r[i] == CamelCase(name[2..])[i - 1];
      }
    } else if name != [] {
      var rest := CamelCase(name[1..]);
      NoHyphenBeforeLower(name[1..]);
      assert r == [name[0]] + rest;
      if |rest| > 0 && name[0] == '-' && 'a' <= rest[0] <= 'z' {
        FirstOfCamelCase(name[1..]);
      }
      forall i | 0 <= i < |r| - 1 && r[i] == '-' ensures !('a' <= r[i + 1] <= 'z') {
        if i > 0 {
          assert r[i] == rest[i - 1] && r[i + 1] == rest[i];
        }
      }
    }
  }

  /**
   * A lower-case letter at the head of the result is the name's own first
   * character: an upper-cased match never starts with one.
   */
  lemma FirstOfCamelCase(name: string)
    requires |CamelCase(name)| > 0 && 'a' <= CamelCase(name)[0] <= 'z'
    ensures |name| > 0 && CamelCase(name)[0] == name[0]
  {
  }

  /** A hyphen-free word, a hyphen and a word character: the hyphen goes and the character is upper cased. */
  lemma {:induction false} CamelCaseJoin(word: string, ch: char, rest: string)
    requires forall i :: 0 <= i < |word| ==> word[i] != '-'
    requires IsWordChar(ch)
    ensures CamelCase(word + ['-', ch] + rest) == word + [ToUpper(ch)] + CamelCase(rest)
  {
    var name := word + ['-', ch] + rest;
    if word == [] {
      assert name == ['-', ch] + rest;
      assert name[2..] == rest;
    } else {
      CamelCaseJoin(word[1..], ch, rest);
      assert name[1..] == word[1..] + ['-', ch] + rest;
    }
  }

  /** The ids of src/www/action.js:396-407 become the field names the code uses. */
  lemma PwLengthName()
    ensures CamelCase("pw-length") == "pwLength"
  {
    var name := "pw" + ['-', 'l'] + "ength";
    CamelCaseJoin("pw", 'l', "ength");
    NoHyphenUnchanged("ength");
    assert name == "pw-length";
    assert "pw" + [ToUpper('l')] + "ength" == "pwLength";
  }

  /** Of two hyphens in a row only the second is replaced: matches do not overlap. */
  lemma DoubleHyphenName()
    ensures CamelCase("a--b") == "a-B"
  {
    assert "-b"[2..] == [] && CamelCase("-b") == "B";
    assert "--b"[1..] == "-b" && CamelCase("--b") == "-B";
    assert "a--b"[1..] == "--b";
  }
}
