/**
 * `uniquify` and its `enforceConstraints` callback (src/www/action.js:128-170):
 * the master password salted with the site is hashed, and the result is
 * hashed again, as often as it takes, until it holds a character of every
 * enabled class.
 */
module Uniquify {
  import opened Hex
  import opened Charset
  import opened Digest

  /** Why `uniquify` delivers no password. */
  datatype Error =
    | RangeError   // `pwLength` is not 8, 12 or 16
    | OutOfFuel    // the rehash budget of the model ran out

  datatype Result<T> = Success(value: T) | Failure(error: Error)

  /** The lengths the check at src/www/action.js:130 accepts. */
  predicate ValidLength(pwLength: int) {
    pwLength == 8 || pwLength == 12 || pwLength == 16
  }

  /** `settings.pwLength * 32 | 0`; the truncation does nothing on the accepted lengths. */
  function Bits(pwLength: int): (bits: nat)
    requires ValidLength(pwLength)
    ensures IsShaWidth(bits) && bits / 32 == pwLength
  {
    pwLength * 32
  }

  predicate HasLower(s: string) { exists i :: 0 <= i < |s| && IsLower(s[i]) }
  predicate HasUpper(s: string) { exists i :: 0 <= i < |s| && IsUpper(s[i]) }
  predicate HasDigit(s: string) { exists i :: 0 <= i < |s| && IsDigit(s[i]) }
  predicate HasSymbol(s: string) { exists i :: 0 <= i < |s| && IsSymbol(s[i]) }

  /** The test of src/www/action.js:157-160: every enabled class occurs in `hash`. */
  predicate MeetsConstraints(c: CharClasses, hash: string) {
    && (!c.lowercase || HasLower(hash))
    && (!c.uppercase || HasUpper(hash))
    && (!c.number || HasDigit(hash))
    && (!c.symbol || HasSymbol(hash))
  }

  /** The hash `enforceConstraints` asks for: `sha(bits, msg, ..., settings)` of a message. */
  function Rehash(sha: Sha, bits: nat, c: CharClasses): string -> string {
    msg => ShaText(sha, bits, msg, c)
  }

  /**
   * The candidate after `k` rehashes: the hash of the start message, then
   * each time the hash of the previous candidate.
   */
  function Candidate(step: string -> string, start: string, k: nat): string {
    if k == 0 then step(start) else step(Candidate(step, start, k - 1))
  }

  /** No candidate before the `k`-th passes the test. */
  predicate NoneMeetBefore(step: string -> string, c: CharClasses, start: string, k: nat) {
    k == 0 || (NoneMeetBefore(step, c, start, k - 1) && !MeetsConstraints(c, Candidate(step, start, k - 1)))
  }

  /** Candidate `k` is the first one that passes the test. */
  predicate FirstMeeting(step: string -> string, c: CharClasses, start: string, k: nat) {
    MeetsConstraints(c, Candidate(step, start, k)) && NoneMeetBefore(step, c, start, k)
  }

  /** NoneMeetBefore says what its name says: every earlier candidate fails the test. */
  lemma {:induction false} NoneMeetBeforeAll(step: string -> string, c: CharClasses, start: string, k: nat)
    ensures NoneMeetBefore(step, c, start, k) ==>
              forall j :: 0 <= j < k ==> !MeetsConstraints(c, Candidate(step, start, j))
    ensures (forall j :: 0 <= j < k ==> !MeetsConstraints(c, Candidate(step, start, j))) ==>
              NoneMeetBefore(step, c, start, k)
  {
    if k > 0 {
      NoneMeetBeforeAll(step, c, start, k - 1);
      var last := Candidate(step, start, k - 1);
      assert NoneMeetBefore(step, c, start, k) == (NoneMeetBefore(step, c, start, k - 1) && !MeetsConstraints(c, last));
      if forall j :: 0 <= j < k ==> !MeetsConstraints(c, Candidate(step, start, j)) {
        assert forall j :: 0 <= j < k - 1 ==> !MeetsConstraints(c, Candidate(step, start, j));
        assert !MeetsConstraints(c, last);
      }
      if NoneMeetBefore(step, c, start, k) {
        forall j | 0 <= j < k ensures !MeetsConstraints(c, Candidate(step, start, j)) {
          if j == k - 1 {
            assert Candidate(step, start, j) == last;
          }
        }
      }
    }
  }

  /**
   * `enforceConstraints` (src/www/action.js:153-169) from the first hash of
   * `start` on: the first candidate that passes the test. The source rehashes
   * without bound; `fuel` bounds the number of rehashes, and OutOfFuel says
   * that bound was reached with no candidate passing.
   */
  method EnforceConstraints(step: string -> string, c: CharClasses, start: string, fuel: nat)
    returns (r: Result<string>)
    ensures r.Success? ==> MeetsConstraints(c, r.value)
    ensures r.Success? ==> exists k :: 0 <= k <= fuel && FirstMeeting(step, c, start, k)
                                       && r.value == Candidate(step, start, k)
    ensures r.Failure? ==> r.error == OutOfFuel && NoneMeetBefore(step, c, start, fuel + 1)
    ensures MeetsConstraints(c, step(start)) ==> r == Success(step(start))
  {
    var hash := step(start);
    var k := 0;
    while !MeetsConstraints(c, hash)
      invariant k <= fuel
      invariant hash == Candidate(step, start, k)
      invariant NoneMeetBefore(step, c, start, k)
      invariant MeetsConstraints(c, step(start)) ==> k == 0
      decreases fuel - k
    {
      if k == fuel {
        return Failure(OutOfFuel);
      }
      hash := step(hash);
      k := k + 1;
    }
    return Success(hash);
  }

  /**
   * `uniquify(pw, site, callback, settings)`, with the callback's argument as
   * the result: RangeError for a length other than 8, 12 or 16, otherwise the
   * first candidate, starting from `pw + site`, that passes the test.
   */
  method Uniquify(sha: Sha, pw: string, site: string, pwLength: int, c: CharClasses, fuel: nat)
    returns (r: Result<string>)
    ensures r == Failure(RangeError) <==> !ValidLength(pwLength)
    ensures r.Success? ==> ValidLength(pwLength) && MeetsConstraints(c, r.value)
    ensures r.Success? ==> exists k :: 0 <= k <= fuel && FirstMeeting(Rehash(sha, Bits(pwLength), c), c, pw + site, k)
                                       && r.value == Candidate(Rehash(sha, Bits(pwLength), c), pw + site, k)
    ensures r == Failure(OutOfFuel) ==>
              ValidLength(pwLength) && NoneMeetBefore(Rehash(sha, Bits(pwLength), c), c, pw + site, fuel + 1)
    ensures ValidLength(pwLength) && !AnyEnabled(c) ==> r == Success(HexDump(sha(Bits(pwLength), pw + site)))
  {
    if !ValidLength(pwLength) {
      return Failure(RangeError);
    }
    var bits := pwLength * 32;
    assert bits == Bits(pwLength);
    var step := Rehash(sha, bits, c);
    if !AnyEnabled(c) {
      NoClassesMeet(c, step(pw + site));
      assert step(pw + site) == HexDump(sha(bits, pw + site));
    }
    r := EnforceConstraints(step, c, pw + site, fuel);
  }

  /** Every candidate of a supported width has one alphabet character per word. */
  lemma CandidateShape(sha: Sha, bits: nat, c: CharClasses, start: string, k: nat)
    requires WordCounts(sha) && IsShaWidth(bits) && AnyEnabled(c)
    ensures |Candidate(Rehash(sha, bits, c), start, k)| == bits / 32
    ensures forall i :: 0 <= i < bits / 32 ==> InAlphabet(c, Candidate(Rehash(sha, bits, c), start, k)[i])
  {
    var msg := if k == 0 then start else Candidate(Rehash(sha, bits, c), start, k - 1);
    assert Candidate(Rehash(sha, bits, c), start, k) == ShaText(sha, bits, msg, c);
    ShaTextShape(sha, bits, msg, c);
  }

  /**
   * In alphabet mode every candidate `uniquify` may deliver has exactly
   * `pwLength` characters, each offered by the alphabet of the settings.
   */
  lemma PasswordShape(sha: Sha, pwLength: int, c: CharClasses, start: string, k: nat)
    requires WordCounts(sha) && ValidLength(pwLength) && AnyEnabled(c)
    ensures |Candidate(Rehash(sha, Bits(pwLength), c), start, k)| == pwLength
    ensures forall i :: 0 <= i < pwLength ==> InAlphabet(c, Candidate(Rehash(sha, Bits(pwLength), c), start, k)[i])
  {
    CandidateShape(sha, Bits(pwLength), c, start, k);
  }

  /**
   * The password does not depend on the rehash budget: there is at most one
   * first candidate that passes, so any two runs that succeed agree.
   */
  lemma FirstMeetingUnique(step: string -> string, c: CharClasses, start: string, k1: nat, k2: nat)
    requires FirstMeeting(step, c, start, k1) && FirstMeeting(step, c, start, k2)
    ensures k1 == k2
  {
    NoneMeetBeforeAll(step, c, start, k1);
    NoneMeetBeforeAll(step, c, start, k2);
  }

  /** With no class enabled the test always passes: the first hash is the password. */
  lemma NoClassesMeet(c: CharClasses, hash: string)
    requires !AnyEnabled(c)
    ensures MeetsConstraints(c, hash)
  {
  }

  /**
   * With every class enabled, a password passes exactly when it holds a
   * lower-case letter, an upper-case letter, a digit and a symbol from the
   * regex's class; backslash counts as a symbol there even though the
   * alphabet never offers it.
   */
  lemma AllClassesMeet(hash: string)
    ensures MeetsConstraints(AllClasses, hash) <==>
              HasLower(hash) && HasUpper(hash) && HasDigit(hash) && HasSymbol(hash)
    ensures MeetsConstraints(AllClasses, "aA0\\")
    ensures !InAlphabet(AllClasses, '\\')
  {
    var s := "aA0\\";
    assert IsLower(s[0]) && IsUpper(s[1]) && IsDigit(s[2]) && IsSymbol(s[3]);
  }

  /**
   * A candidate drawn from the alphabet of `c` always passes when only one
   * class is enabled: every character already belongs to it.
   */
  lemma SingleClassMeets(sha: Sha, bits: nat, c: CharClasses, start: string)
    requires WordCounts(sha) && IsShaWidth(bits)
    requires c == CharClasses(true, false, false, false) || c == CharClasses(false, true, false, false)
          || c == CharClasses(false, false, true, false) || c == CharClasses(false, false, false, true)
    ensures FirstMeeting(Rehash(sha, bits, c), c, start, 0)
  {
    CandidateShape(sha, bits, c, start, 0);
    var h := Candidate(Rehash(sha, bits, c), start, 0);
    assert InAlphabet(c, h[0]);
  }
}
