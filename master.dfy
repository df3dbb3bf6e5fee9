/**
 * The master password (src/www/action.js:517-598): `storePassword` keeps a
 * salted and peppered SHA-512 hex dump of it in the settings record,
 * `verifyPassword` tries every pepper against that dump, and `clearPassword`
 * forgets it. The settings record is the shared `settings` object those
 * functions update in place before handing it to `storage.set`.
 */
module Master {
  import opened Hex
  import opened Charset
  import opened Digest
  import opened Random
  import opened Storage

  /** `saltiness`: the length of the stored salt. */
  const Saltiness: nat := 16

  /** `pepperiness`: the number of hexadecimal digits of pepper. */
  const Pepperiness: nat := 2

  /** `pepperLimit = 0x1 << (4 * pepperiness)`: sixteen to the `pepperiness`. */
  const PepperLimit: nat := 256

  /** The first-run sentinels of `defaultSettings` and the value `clearPassword` writes. */
  const PasswordNotSet := "password_not_set"
  const SaltNotSet := "salt_not_set"
  const DoNotRemember := "do_not_remember"

  /** A salt `randomChars(saltiness)` can produce. */
  predicate IsSalt(s: string) {
    |s| == Saltiness && forall i :: 0 <= i < |s| ==> IsPrintable(s[i])
  }

  /** A pepper `randomHex(pepperiness)` can produce. */
  predicate IsPepper(p: string) {
    |p| == Pepperiness && IsHexText(p)
  }

  /** `sha(512, pw + salt + pepper, ..., hexSettings)`: the text that is stored. */
  function MasterHash(sha: Sha, pw: string, salt: string, pepper: string): (h: string)
    ensures h == HexDump(sha(512, pw + salt + pepper))
    ensures forall i :: 0 <= i < |h| ==> IsDumpChar(h[i])
  {
    ShaText(sha, 512, pw + salt + pepper, NoClasses)
  }

  /** The hash with pepper `hexPad(i, pepperiness)`, the `i`-th guess of `verifyPassword`. */
  function Guess(sha: Sha, pw: string, salt: string, i: nat): string {
    MasterHash(sha, pw, salt, HexPad(i, Pepperiness))
  }

  /** One of the guesses `i = pepperLimit` down to `0` reproduces `hash`. */
  predicate PepperFound(sha: Sha, pw: string, salt: string, hash: string) {
    exists i :: 0 <= i <= PepperLimit && Guess(sha, pw, salt, i) == hash
  }

  /** The `settings` object of src/www/action.js:371. */
  class Settings {
    var pwLength: int
    var lowercase: bool
    var uppercase: bool
    var number: bool
    var symbol: bool
    var masterHash: string
    var masterSalt: string
    var rememberPassword: bool

    /** A copy of `defaultSettings` (src/www/action.js:6-15). */
    constructor ()
      ensures pwLength == 12 && Classes() == AllClasses
      ensures masterHash == PasswordNotSet && masterSalt == SaltNotSet && rememberPassword
    {
      pwLength := 12;
      lowercase, uppercase, number, symbol := true, true, true, true;
      masterHash := PasswordNotSet;
      masterSalt := SaltNotSet;
      rememberPassword := true;
    }

    /** The class flags, as `sha` and `uniquify` read them. */
    function Classes(): CharClasses
      reads this
    {
      CharClasses(lowercase, uppercase, number, symbol)
    }

    /** The record as `storage.set(settings)` sees it, key by key. */
    function Items(): (items: map<string, Value>)
      reads this
      ensures items.Keys == {"pwLength", "lowercase", "uppercase", "number", "symbol",
                             "masterHash", "masterSalt", "rememberPassword"}
      ensures items["masterHash"] == Str(masterHash) && items["masterSalt"] == Str(masterSalt)
    {
      map[
        "pwLength" := Int(pwLength),
        "lowercase" := Bool(lowercase),
        "uppercase" := Bool(uppercase),
        "number" := Bool(number),
        "symbol" := Bool(symbol),
        "masterHash" := Str(masterHash),
        "masterSalt" := Str(masterSalt),
        "rememberPassword" := Bool(rememberPassword)]
    }

    /**
     * `storePassword(pw, callback)`: a fresh salt and pepper from the draws,
     * the hash of `pw + salt + pepper` and the salt kept, the password
     * remembered, and the whole record written to the store. The pepper is
     * not kept anywhere.
     */
    method StorePassword(sha: Sha, pw: string, saltDraws: seq<real>, pepperDraws: seq<real>, store: Store)
      requires |saltDraws| == Saltiness && AreDraws(saltDraws)
      requires |pepperDraws| == Pepperiness && AreDraws(pepperDraws)
      modifies this, store
      ensures masterSalt == RandomChars(saltDraws) && IsSalt(masterSalt)
      ensures masterHash == MasterHash(sha, pw, masterSalt, RandomHex(pepperDraws))
      ensures rememberPassword
      ensures pwLength == old(pwLength) && Classes() == old(Classes())
      ensures store.items == old(store.items) + map k | k in Items() :: Stringify(Items()[k])
    {
      var salt := RandomChars(saltDraws);
      var pepper := RandomHex(pepperDraws);
      var hash := MasterHash(sha, pw, salt, pepper);
      masterHash := hash;
      masterSalt := salt;
      rememberPassword := true;
      store.Set(Items());
    }

    /**
     * `verifyPassword(pw, callback)`, with the callback's argument as the
     * result: the countdown over the peppers against the stored salt and hash.
     */
    method VerifyPassword(sha: Sha, pw: string) returns (correct: bool)
      ensures correct <==> PepperFound(sha, pw, masterSalt, masterHash)
    {
      correct := HashAndCompare(sha, pw, masterSalt, masterHash);
    }

    /**
     * `clearPassword(callback)`: the password is forgotten, hash and salt
     * overwritten with `'do_not_remember'`, and the record written to the store.
     */
    method ClearPassword(store: Store)
      modifies this, store
      ensures !rememberPassword && masterHash == DoNotRemember && masterSalt == DoNotRemember
      ensures pwLength == old(pwLength) && Classes() == old(Classes())
      ensures store.items == old(store.items) + map k | k in Items() :: Stringify(Items()[k])
    {
      rememberPassword := false;
      masterHash := DoNotRemember;
      masterSalt := DoNotRemember;
      store.Set(Items());
    }

    /** A password just stored is accepted by `verifyPassword`, whatever the draws were. */
    method StoreThenVerify(sha: Sha, pw: string, saltDraws: seq<real>, pepperDraws: seq<real>, store: Store)
      returns (correct: bool)
      requires |saltDraws| == Saltiness && AreDraws(saltDraws)
      requires |pepperDraws| == Pepperiness && AreDraws(pepperDraws)
      modifies this, store
      ensures correct
    {
      StorePassword(sha, pw, saltDraws, pepperDraws, store);
      StoredPepperFound(sha, pw, masterSalt, RandomHex(pepperDraws));
      correct := VerifyPassword(sha, pw);
    }
  }

  /**
   * The countdown of `hashAndCompare`: `guess(i)` for `i = limit, ..., 0` is
   * compared with `target`, stopping at the first that matches; once
   * `i --> 0` fails, the answer is false.
   */
  method Countdown(guess: nat -> string, target: string, limit: nat) returns (found: bool)
    ensures found <==> exists i :: 0 <= i <= limit && guess(i) == target
  {
    var i: nat := limit;
    while true
      invariant i <= limit
      invariant forall j: nat :: i < j <= limit ==> guess(j) != target
      decreases i
    {
      if guess(i) == target {
        return true;
      }
      if i == 0 {
        return false;
      }
      i := i - 1;
    }
  }

  /**
   * `hashAndCompare(pw, pepperLimit, callback)` (src/www/action.js:558-574):
   * the countdown over the guesses, each the hash with pepper `hexPad(i, 2)`.
   */
  method HashAndCompare(sha: Sha, pw: string, salt: string, hash: string) returns (correct: bool)
    ensures correct <==> PepperFound(sha, pw, salt, hash)
  {
    var guess := (i: nat) => Guess(sha, pw, salt, i);
    correct := Countdown(guess, hash, PepperLimit);
    assert forall i: nat :: guess(i) == Guess(sha, pw, salt, i);
  }

  /**
   * The guesses cover every pepper: `hexPad(i, 2)` for `i` from 256 down to 0
   * is a two-digit hexadecimal text, every such text occurs, and "00" is
   * both the first guess and the last.
   */
  lemma PepperSchedule()
    ensures PepperLimit == Pow16(Pepperiness)
    ensures HexPad(PepperLimit, Pepperiness) == "00" && HexPad(0, Pepperiness) == "00"
    ensures forall i: nat :: IsPepper(HexPad(i, Pepperiness))
    ensures forall p :: IsPepper(p) ==> Hex.Value(p) < PepperLimit && HexPad(Hex.Value(p), Pepperiness) == p
  {
    assert ToHex(256) == ToHex(16) + ['0'];
    assert ToHex(16) == ToHex(1) + ['0'];
    assert Zeros(1) + ToHex(256) == "0100";
    assert ToHex(0) == "0";
    assert Zeros(1) + ToHex(0) == "00";
    forall p | IsPepper(p) ensures Hex.Value(p) < PepperLimit && HexPad(Hex.Value(p), Pepperiness) == p {
      HexPadOfValue(p);
    }
  }

  /** `verifyPassword` accepts exactly when some pepper `randomHex` could have drawn reproduces the hash. */
  lemma PepperFoundIff(sha: Sha, pw: string, salt: string, hash: string)
    ensures PepperFound(sha, pw, salt, hash) <==>
              exists p :: IsPepper(p) && MasterHash(sha, pw, salt, p) == hash
  {
    PepperSchedule();
    if PepperFound(sha, pw, salt, hash) {
      var i :| 0 <= i <= PepperLimit && Guess(sha, pw, salt, i) == hash;
      assert IsPepper(HexPad(i, Pepperiness));
    }
    if exists p :: IsPepper(p) && MasterHash(sha, pw, salt, p) == hash {
      var p :| IsPepper(p) && MasterHash(sha, pw, salt, p) == hash;
      assert Guess(sha, pw, salt, Hex.Value(p)) == hash;
    }
  }

  /** The pepper `storePassword` used is among the guesses, so its hash is found. */
  lemma StoredPepperFound(sha: Sha, pw: string, salt: string, pepper: string)
    requires IsPepper(pepper)
    ensures PepperFound(sha, pw, salt, MasterHash(sha, pw, salt, pepper))
  {
    PepperFoundIff(sha, pw, salt, MasterHash(sha, pw, salt, pepper));
  }

  /**
   * The sentinels are told apart from each other and from any stored hash:
   * they contain `_`, which a hex dump never does.
   */
  lemma SentinelsDistinct(words: seq<Word>)
    ensures DoNotRemember != PasswordNotSet && SaltNotSet != PasswordNotSet && DoNotRemember != SaltNotSet
    ensures HexDump(words) != PasswordNotSet && HexDump(words) != SaltNotSet && HexDump(words) != DoNotRemember
  {
    HexDumpLayout(words);
    var d := HexDump(words);
    if |d| > 8 {
      assert !IsDumpChar('_');
      assert PasswordNotSet[8] == '_' && SaltNotSet[4] == '_' && DoNotRemember[2] == '_';
    }
    assert DoNotRemember[0] != PasswordNotSet[0];
    assert SaltNotSet[0] != PasswordNotSet[0];
    assert DoNotRemember[0] != SaltNotSet[0];
  }

  /** A stored master hash is never one of the sentinels. */
  lemma MasterHashNotSentinel(sha: Sha, pw: string, salt: string, pepper: string)
    ensures MasterHash(sha, pw, salt, pepper) != PasswordNotSet
    ensures MasterHash(sha, pw, salt, pepper) != DoNotRemember
  {
    SentinelsDistinct(sha(512, pw + salt + pepper));
  }

  /**
   * A SHA-512 hex dump comes back from `get` as the same string: its space
   * keeps it from looking like a number.
   */
  lemma HexDumpReadsBack(words: seq<Word>)
    requires |words| >= 2
    ensures Coerce(HexDump(words)) == Str(HexDump(words))
  {
    HexDumpLayout(words);
    var d := HexDump(words);
    assert d[8] == ' ';
    assert d != "true" && d != "false";
    var t := Unsigned(d);
    assert t == d;
    assert DigitRun(t) <= 8;
    assert !IsFloatText(d) by {
      assert !IsDigit(' ');
    }
  }

  /**
   * What the page finds on the next load (src/www/action.js:604-606): after
   * `storePassword` the stored hash reads back as itself, which is not the
   * first-run sentinel; after `clearPassword`, `'do_not_remember'`, which is
   * not the sentinel either.
   */
  lemma ReloadIsNotFirstRun(before: map<string, string>, items: map<string, Value>, hash: string)
    requires "masterHash" in items && items["masterHash"] == Str(hash)
    requires hash == DoNotRemember || exists words: seq<Word> :: |words| >= 2 && hash == HexDump(words)
    ensures Lookup(before + map k | k in items :: Stringify(items[k]), "masterHash", Str(PasswordNotSet)) == Str(hash)
    ensures hash != PasswordNotSet
  {
    if hash == DoNotRemember {
      assert Coerce(hash) == Str(hash) by {
        assert DigitRun(hash) == 0;
        assert !IsDigit(hash[0]);
      }
      assert DoNotRemember[0] != PasswordNotSet[0];
    } else {
      var words: seq<Word> :| |words| >= 2 && hash == HexDump(words);
      HexDumpReadsBack(words);
      SentinelsDistinct(words);
      HexDumpLayout(words);
    }
    SetThenLookup(before, items, "masterHash", Str(PasswordNotSet));
  }
}
