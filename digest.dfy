/**
 * The `sha` function of src/www/action.js:46-96: the platform digest of a
 * message, read as unsigned 32-bit words, each word mapped onto a character
 * of the alphabet, or, when no class is enabled, onto eight hexadecimal
 * digits with a space between words.
 */
module Digest {
  import opened Hex
  import opened Charset

  /** An element of the `Uint32Array` view of the digest. */
  type Word = n: nat | n < 0x1_0000_0000

  /**
   * `window.crypto.subtle.digest('SHA-' + bits, new TextEncoder('utf-8').encode(msg))`
   * followed by `new Uint32Array(...)`: the message is encoded, hashed and
   * read as words. The model takes it as a parameter and assumes nothing of
   * it beyond the number of words (WordCounts).
   */
  type Sha = (nat, string) -> seq<Word>

  /** The widths `uniquify` and the master-password code ask for. */
  predicate IsShaWidth(bits: nat) {
    bits == 256 || bits == 384 || bits == 512
  }

  /** SHA-256, SHA-384 and SHA-512 produce 8, 12 and 16 words. */
  ghost predicate WordCounts(sha: Sha) {
    forall bits: nat, msg: string :: IsShaWidth(bits) ==> |sha(bits, msg)| == bits / 32
  }

  /** `Array.prototype.join(sep)` on strings. */
  function Join(parts: seq<string>, sep: string): (s: string)
    ensures |parts| >= 1 ==> parts[0] <= s
  {
    if |parts| == 0 then ""
    else if |parts| == 1 then parts[0]
    else parts[0] + sep + Join(parts[1..], sep)
  }

  /**
   * The alphabet branch, src/www/action.js:74-75 and 92-94: each word `n`
   * becomes `chars[n % chars.length]`, joined with `''`. The result has one
   * character per word, taken from the alphabet.
   */
  function MapToAlphabet(words: seq<Word>, chars: string): (s: string)
    requires |chars| > 0
    ensures |s| == |words|
    ensures forall i :: 0 <= i < |s| ==> s[i] == chars[words[i] % |chars|]
    ensures forall i :: 0 <= i < |s| ==> s[i] in chars
  {
    var parts := seq(|words|, i requires 0 <= i < |words| => [chars[words[i] % |chars|]]);
    JoinSingletons(parts);
    Join(parts, "")
  }

  /** The hex-dump branch, src/www/action.js:80-81 and 92-94: `hexPad(n, 8)` per word, joined with `' '`. */
  function HexDump(words: seq<Word>): (d: string)
    ensures |words| >= 1 ==> |d| == 9 * |words| - 1
    ensures forall i :: 0 <= i < |d| ==> IsDumpChar(d[i])
  {
    var parts := seq(|words|, i requires 0 <= i < |words| => HexPad(words[i], 8));
    JoinChunks(parts);
    Join(parts, " ")
  }

  /** What `sha(bits, msg, callback, settings)` hands to its callback. */
  function ShaText(sha: Sha, bits: nat, msg: string, c: CharClasses): (s: string)
    ensures AnyEnabled(c) ==> |s| == |sha(bits, msg)| && forall i :: 0 <= i < |s| ==> s[i] in Alphabet(c)
    ensures !AnyEnabled(c) ==> forall i :: 0 <= i < |s| ==> IsDumpChar(s[i])
  {
    if AnyEnabled(c) then MapToAlphabet(sha(bits, msg), Alphabet(c)) else HexDump(sha(bits, msg))
  }

  /**
   * `join` read left to right: joining one more part appends the separator
   * and that part to the join of the parts before it.
   */
  lemma {:induction false} JoinAppend(parts: seq<string>, part: string, sep: string)
    requires |parts| >= 1
    ensures Join(parts + [part], sep) == Join(parts, sep) + sep + part
  {
    if |parts| >= 2 {
      JoinAppend(parts[1..], part, sep);
      assert (parts + [part])[1..] == parts[1..] + [part];
    } else {
      assert (parts + [part])[1..] == [part];
    }
  }

  /** Joining one-character strings with nothing in between gives the characters in order. */
  lemma {:induction false} JoinSingletons(parts: seq<string>)
    requires forall i :: 0 <= i < |parts| ==> |parts[i]| == 1
    ensures |Join(parts, "")| == |parts|
    ensures forall i :: 0 <= i < |parts| ==> Join(parts, "")[i] == parts[i][0]
  {
    if |parts| >= 2 {
      JoinSingletons(parts[1..]);
      assert Join(parts, "") == parts[0] + Join(parts[1..], "");
    }
  }

  /** A character a hex dump may contain. */
  predicate IsDumpChar(ch: char) {
    IsHexDigit(ch) || ch == ' '
  }

  /**
   * A hex dump of `k >= 1` words is `8k + (k - 1)` characters long: word `j`
   * is the eight digits at `9j`, followed by a single space unless it is the
   * last. Nothing else occurs in it.
   */
  lemma HexDumpLayout(words: seq<Word>)
    ensures |words| == 0 ==> HexDump(words) == ""
    ensures |words| >= 1 ==> |HexDump(words)| == 8 * |words| + (|words| - 1)
    ensures forall j :: 0 <= j < |words| ==> HexDump(words)[9 * j..9 * j + 8] == HexPad(words[j], 8)
    ensures forall j :: 0 <= j < |words| - 1 ==> HexDump(words)[9 * j + 8] == ' '
    ensures forall i :: 0 <= i < |HexDump(words)| ==> IsDumpChar(HexDump(words)[i])
  {
    var parts := seq(|words|, i requires 0 <= i < |words| => HexPad(words[i], 8));
    assert forall i :: 0 <= i < |parts| ==> parts[i] == HexPad(words[i], 8);
    JoinChunks(parts);
    assert HexDump(words) == Join(parts, " ");
  }

  lemma {:induction false} JoinChunks(parts: seq<string>)
    requires forall i :: 0 <= i < |parts| ==> |parts[i]| == 8 && IsHexText(parts[i])
    ensures |parts| >= 1 ==> |Join(parts, " ")| == 9 * |parts| - 1
    ensures forall j :: 0 <= j < |parts| ==> Join(parts, " ")[9 * j..9 * j + 8] == parts[j]
    ensures forall j :: 0 <= j < |parts| - 1 ==> Join(parts, " ")[9 * j + 8] == ' '
    ensures forall i :: 0 <= i < |Join(parts, " ")| ==> IsDumpChar(Join(parts, " ")[i])
  {
    if |parts| >= 2 {
      var rest := parts[1..];
      JoinChunks(rest);
      var s := Join(parts, " ");
      assert s == parts[0] + " " + Join(rest, " ");
      forall j | 1 <= j < |parts| ensures s[9 * j..9 * j + 8] == parts[j] {
        assert s[9 * j..9 * j + 8] == Join(rest, " ")[9 * (j - 1)..9 * (j - 1) + 8];
      }
      forall j | 1 <= j < |parts| - 1 ensures s[9 * j + 8] == ' ' {
        assert s[9 * j + 8] == Join(rest, " ")[9 * (j - 1) + 8];
      }
      forall i | 0 <= i < |s| ensures IsDumpChar(s[i]) {
        if i >= 9 {
          assert s[i] == Join(rest, " ")[i - 9];
        }
      }
    }
  }

  /** Distinct word sequences give distinct hex dumps: the dump loses nothing. */
  lemma HexDumpInjective(a: seq<Word>, b: seq<Word>)
    requires HexDump(a) == HexDump(b)
    ensures a == b
  {
    HexDumpLayout(a);
    HexDumpLayout(b);
    assert |a| == |b|;
    forall j | 0 <= j < |a| ensures a[j] == b[j] {
      assert HexPad(a[j], 8) == HexPad(b[j], 8);
      HexPadRoundTrip(a[j], 8);
      HexPadRoundTrip(b[j], 8);
    }
  }

  /**
   * What `sha` produces for a supported width: with some class enabled one
   * character of the alphabet per word (8, 12 or 16 of them), otherwise a hex
   * dump of `9 * words - 1` characters.
   */
  lemma ShaTextShape(sha: Sha, bits: nat, msg: string, c: CharClasses)
    requires WordCounts(sha) && IsShaWidth(bits)
    ensures AnyEnabled(c) ==> |ShaText(sha, bits, msg, c)| == bits / 32
    ensures AnyEnabled(c) ==> forall i :: 0 <= i < |ShaText(sha, bits, msg, c)| ==>
              InAlphabet(c, ShaText(sha, bits, msg, c)[i])
    ensures !AnyEnabled(c) ==> |ShaText(sha, bits, msg, c)| == 9 * (bits / 32) - 1
  {
    var words := sha(bits, msg);
    if AnyEnabled(c) {
      AlphabetOrdered(c);
      var s := ShaText(sha, bits, msg, c);
      forall i | 0 <= i < |s| ensures InAlphabet(c, s[i]) {
        assert s[i] in Alphabet(c);
      }
    } else {
      HexDumpLayout(words);
    }
  }
}
