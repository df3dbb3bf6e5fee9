# password-uniquifier, modelled in Dafny

password-uniquifier derives a separate password for every site from one
master password. It hashes the master password salted with the site name and
maps the digest onto the character classes the user enabled. It rehashes until
every enabled class occurs. For the master password it keeps only a salted and
peppered SHA-512 hex dump.

This project models the core of `src/www/action.js`:

- `hex.dfy` (module `Hex`): `Number.prototype.toString(16)` and `hexPad`.
- `charset.dfy` (module `Charset`): the character classes, the alphabet that
  `sha` builds from the enabled classes, and the class tests of the constraint
  regexes.
- `digest.dfy` (module `Digest`): `sha` after the digest. Each 32-bit word
  becomes one alphabet character, or eight hex digits with spaces between
  words when no class is enabled. The digest itself (`crypto.subtle.digest` with
  `TextEncoder` and `Uint32Array`) is a function-valued parameter `Sha`.
- `uniquify.dfy` (module `Uniquify`): `uniquify` and its `enforceConstraints`
  rehash loop.
- `random.dfy` (module `Random`): `randomChars` and `randomHex`. The values of
  `Math.random()` are passed in as a sequence of draws in [0, 1).
- `storage.dfy` (module `Storage`): the `'webpage'` flavour of `Storage`. A
  class `Store` holds the `localStorage` strings as a map. It has `get` with
  its boolean and number coercion, `set` and `clear`.
- `master.dfy` (module `Master`): the `settings` record as a class
  `Settings`, with `storePassword`, `verifyPassword` (the countdown over
  the peppers) and `clearPassword`, and the sentinels they use.
- `names.dfy` (module `Names`): `camelCase`.

Callbacks are flattened: a function that hands its result to a callback
returns it instead.

Where the comments in the source and its code disagree, the model follows the
code:

- The comment at `src/www/action.js:40` speaks of 94 printable characters.
  With every class on, the alphabet the code builds has 93: the literal at
  line 68 loses its backslash to the string escape. The symbol regex at line
  160 still accepts a backslash (`Charset.FullAlphabet`,
  `Uniquify.AllClassesMeet`).
- `verifyPassword` tries 257 peppers, not 256. The countdown starts at
  `pepperLimit` = 256, and `hexPad(256, 2)` is `"00"`, so "00" is tried first
  and last (`Master.PepperSchedule`).
- The integer regex of `get` admits an exponent that `parseInt` then
  ignores: `"1e5"` reads back as 1 (`Storage.ParseIntStopsAtExponent`).
- A salt made only of digits, which `randomChars(16)` can draw, comes back
  from `get` as a number, not as the salt text
  (`Storage.DigitsComeBackAsNumber`). What the page then does with that number
  goes through JavaScript's string concatenation, which is not part of this
  model.

## Model

| member | source | states |
|---|---|---|
| Hex.ToHex | src/www/action.js:202 | `toString(16)` of a non-negative integer is a non-empty string of lower-case hex digits |
| Hex.ToHexValue | src/www/action.js:202 | `toString(16)` is the base-16 numeral of `n`: it denotes `n`, and has no leading zero unless it is "0" |
| Hex.HexPad | src/www/action.js:201-203 | for `len >= 1` the result has exactly `len` characters, all hex digits |
| Hex.HexPadIsLowDigits | src/www/action.js:201-203 | `hexPad(num, len)` is the low `len` hex digits of `num`, zero padded, and its value is `num` modulo 16^len |
| Hex.HexPadRoundTrip | src/www/action.js:201-203 | a number below 16^len is recovered exactly from its padded text |
| Hex.HexPadOfValue | src/www/action.js:201-203 | every hex text of length `len` is `hexPad` of its own value, so `hexPad` reaches all of them |
| Charset.Alphabet | src/www/action.js:62-70 | the alphabet has 31, 10, 26 and 26 characters for the symbol, digit, upper and lower classes, and is non-empty exactly when some class is enabled |
| Charset.BuildAlphabet | src/www/action.js:62-70 | the step-by-step appends give the alphabet, in strictly increasing code-point order, holding exactly the characters of the enabled classes |
| Charset.AlphabetOrdered | src/www/action.js:62-70 | for every flag combination the alphabet is strictly increasing, so it has no duplicates, and a character is in it exactly when its class is enabled (a backslash never is) |
| Charset.FullAlphabet | src/www/action.js:40-70 | with every class on, the alphabet is code points 33 to 126 without the backslash: 93 characters, although the symbol test accepts a backslash |
| Charset.AnyEnabled | src/www/action.js:55-58 | the test that picks alphabet mode over the hex dump: some class flag is on (Charset.Alphabet is non-empty exactly then) |
| Charset.IsSymbol | src/www/action.js:160 | the symbol class of the constraint regex, ranges `!`-`/`, `:`-`@`, `[`-backquote and `{`-`~` |
| Charset.SymbolsArePunctuation | src/www/action.js:160 | a printable character other than space is in the symbol class exactly when it is neither a letter nor a digit, so backslash is in it |
| Digest.MapToAlphabet | src/www/action.js:74-94 | one character per word, the `n % chars.length`-th of the alphabet, so every character is in the alphabet |
| Digest.HexDumpLayout | src/www/action.js:80-94 | a dump of k >= 1 words has 8k + (k - 1) characters: word j as `hexPad(n, 8)` at offset 9j, a single space after every word but the last, nothing but hex digits and spaces |
| Digest.HexDumpInjective | src/www/action.js:80-94 | distinct word sequences give distinct hex dumps |
| Digest.ShaTextShape | src/www/action.js:46-96 | for SHA-256/384/512, alphabet mode gives bits/32 characters, each from the alphabet; hex mode gives 9·(bits/32) - 1 characters |
| Digest.Join | src/www/action.js:94 | `Array.prototype.join`: the result starts with the first part |
| Digest.JoinAppend | src/www/action.js:94 | joining one more part appends the separator and that part to the join of the earlier parts |
| Digest.HexDump | src/www/action.js:80-94 | the hex-dump branch: for k >= 1 words 9k - 1 characters, nothing but hex digits and spaces |
| Digest.ShaText | src/www/action.js:46-96 | what `sha` hands its callback: in alphabet mode one alphabet character per digest word; with no class on, only hex digits and spaces |
| Uniquify.Bits | src/www/action.js:137 | for an accepted length, `pwLength * 32` truncated to an integer is a supported SHA width with exactly `pwLength` words |
| Uniquify.MeetsConstraints | src/www/action.js:157-160 | the constraint test: every enabled class has a character in the hash |
| Uniquify.Rehash | src/www/action.js:167 | one rehash: `sha` of the message at the same width and with the same settings |
| Uniquify.Candidate | src/www/action.js:140-167 | candidate 0 is the hash of `pw + site`, candidate k + 1 the hash of candidate k |
| Uniquify.EnforceConstraints | src/www/action.js:153-169 | a result passes the test of every enabled class and is the first passing candidate, where each candidate is the hash of the previous one; a first hash that passes is delivered with no rehash |
| Uniquify.Uniquify | src/www/action.js:128-141 | RangeError exactly when `pwLength` is not 8, 12 or 16; otherwise the first passing candidate from `pw + site` at width `pwLength * 32`; with no class enabled, the hex dump of the first hash |
| Uniquify.NoneMeetBeforeAll | src/www/action.js:157-168 | the recursive "no earlier candidate passed" is equivalent to "every candidate before the k-th fails the test" |
| Uniquify.FirstMeetingUnique | src/www/action.js:153-168 | there is at most one first passing candidate, so the delivered password does not depend on the rehash bound |
| Uniquify.CandidateShape | src/www/action.js:74-94 | every candidate, including every rehash, has bits/32 characters, each offered by the alphabet |
| Uniquify.PasswordShape | src/www/action.js:128-141 | in alphabet mode every candidate `uniquify` may deliver has exactly `pwLength` characters, each from the alphabet |
| Uniquify.NoClassesMeet | src/www/action.js:157-160 | with no class enabled, any hash passes the test |
| Uniquify.AllClassesMeet | src/www/action.js:157-160 | with every class on, the test holds exactly when the hash has a lower-case letter, an upper-case letter, a digit and a symbol; a backslash counts as the symbol although the alphabet never offers one |
| Uniquify.SingleClassMeets | src/www/action.js:157-160 | with only one class enabled, the first hash always passes |
| Random.PrintableOf | src/www/action.js:180 | `33 + 94 * u`, truncated, for a draw in [0, 1) is a printable character, code 33 to 126 |
| Random.HexDigitOf | src/www/action.js:192 | `16 * u`, truncated and written in base 16, for a draw in [0, 1) is one lower-case hex digit |
| Random.RandomChars | src/www/action.js:177-182 | one printable character per draw |
| Random.RandomHex | src/www/action.js:189-194 | one hex digit per draw |
| Random.RandomCharsOnto | src/www/action.js:177-182 | every printable string of the right length is produced by some draws |
| Random.RandomHexOnto | src/www/action.js:189-194 | every hex text of the right length is produced by some draws |
| Storage.Coerce | src/www/action.js:328-337 | a string left as text is the stored text itself; it becomes an integer only when it matches the integer regex, and then it is `parseInt` of it |
| Storage.CoerceCases | src/www/action.js:328-337 | `'true'` and `'false'` become booleans, integer text becomes `parseInt` of it, float text is recognised, and any other text is kept unchanged |
| Storage.FloatTextIsNotInt | src/www/action.js:333-335 | text the float regex accepts has one digit before its point and is never accepted by the integer regex |
| Storage.IntTextIsNotFloat | src/www/action.js:329-335 | text the integer regex accepts is neither float text nor a boolean word, so the integer branch is the one taken |
| Storage.IsIntText | src/www/action.js:335 | the integer regex: an optional sign, digits, an optional exponent |
| Storage.IsFloatText | src/www/action.js:333 | the float regex: an optional sign, one digit, a point, digits, an optional exponent |
| Storage.ParseInt | src/www/action.js:336 | `parseInt` on integer text: the result is negative only for a leading minus, and never positive after one |
| Storage.Stringify | src/www/action.js:349 | `String(value)` as `setItem` stores it: booleans are written so that `get` reads them back; an integer's text starts with a minus exactly when it is negative |
| Storage.Lookup | src/www/action.js:327-337 | one key of `get`: a non-empty stored string wins over the default and is coerced |
| Storage.Store.constructor | src/www/action.js:320-321 | the store holds the given strings |

| Storage.Store.Get | src/www/action.js:323-345 | one entry per default key: the stored non-empty string or else the default, strings coerced; with no defaults, the whole store as text |
| Storage.Store.Set | src/www/action.js:347-352 | every given key now holds `String(value)`; every other key is unchanged |
| Storage.Store.Clear | src/www/action.js:354-357 | the store is empty |
| Storage.LookupFallsBack | src/www/action.js:327-338 | a missing or empty entry yields the default, coerced if it is a string |
| Storage.DecimalRoundTrip | src/www/action.js:335-336 | `parseInt` of `String(n)` is `n` for a non-negative integer |
| Storage.IntRoundTrip | src/www/action.js:335-349 | an integer written by `set` is coerced back to the same integer |
| Storage.SetThenLookup | src/www/action.js:327-350 | a boolean, an integer or a non-empty plain string written by `set` is what `get` gives back for that key |
| Storage.DigitsComeBackAsNumber | src/www/action.js:335-336 | a salt of sixteen zeros comes back from `get` as the number 0, not as the salt text |
| Storage.ParseIntStopsAtExponent | src/www/action.js:335-336 | "1e5" matches the integer regex and reads back as 1; "-12" reads back as -12 |
| Master.MasterHash | src/www/action.js:541 | the stored text is the hex dump of the SHA-512 words of `pw + salt + pepper`, only hex digits and spaces |
| Master.Settings.Items | src/www/action.js:546 | the record `storage.set` writes has exactly the eight keys of `defaultSettings`, with the hash and salt as text |
| Master.Settings.constructor | src/www/action.js:6-15 | a fresh record holds the defaults: length 12, every class on, the two first-run sentinels, remember on |
| Master.Settings.StorePassword | src/www/action.js:530-547 | the salt is 16 printable characters from the draws; the hash is the hex dump of `pw + salt + pepper` with a drawn two-digit pepper; remember is on; length and classes are unchanged; the whole record is written to the store |
| Master.Settings.VerifyPassword | src/www/action.js:556-575 | true exactly when one of the peppers `hexPad(i, 2)`, i from 256 down to 0, reproduces the stored hash with the stored salt |
| Master.Settings.ClearPassword | src/www/action.js:586-598 | remember is off; hash and salt are `'do_not_remember'`; length and classes are unchanged; the record is written to the store |
| Master.Settings.StoreThenVerify | src/www/action.js:530-575 | a password just stored is accepted by `verifyPassword`, whatever the salt and pepper draws were |
| Master.Countdown | src/www/action.js:558-574 | the countdown `i = limit, ..., 0` with early exit answers true exactly when some guess in 0..limit matches |
| Master.HashAndCompare | src/www/action.js:558-574 | true exactly when some pepper `hexPad(i, 2)` with 0 <= i <= 256 reproduces the hash |
| Master.PepperSchedule | src/www/action.js:520-566 | `pepperLimit` is 16^2; the first guess `hexPad(256, 2)` and the last `hexPad(0, 2)` are both "00"; every guess is a two-digit pepper and every such pepper is a guess |
| Master.PepperFoundIff | src/www/action.js:538-575 | the countdown finds a pepper exactly when some pepper `randomHex(2)` can draw reproduces the hash |
| Master.StoredPepperFound | src/www/action.js:538-575 | the hash stored with any two-digit pepper is found by the countdown |
| Master.SentinelsDistinct | src/www/action.js:586-598 | `'do_not_remember'`, `'password_not_set'` and `'salt_not_set'` differ from each other and from every hex dump |
| Master.MasterHashNotSentinel | src/www/action.js:541-593 | a stored master hash is never the first-run sentinel nor `'do_not_remember'` |
| Master.HexDumpReadsBack | src/www/action.js:328-337 | a SHA-512 hex dump is not coerced by `get`: it comes back as the same text |
| Master.ReloadIsNotFirstRun | src/www/action.js:604-606 | after `storePassword` or `clearPassword`, the next load reads back the stored hash, and it is not the first-run sentinel |
| Names.ToUpper | src/www/action.js:232 | a lower-case letter becomes its upper-case letter, 32 code points lower; every other character is unchanged |
| Names.CamelCase | src/www/action.js:231-233 | the replacement never lengthens the name and keeps a first character that is not a hyphen |
| Names.NoHyphenUnchanged | src/www/action.js:231-233 | a name without hyphens is unchanged |
| Names.CamelCaseLength | src/www/action.js:231-233 | each match removes exactly one character, and at most half the characters match |
| Names.NoHyphenBeforeLower | src/www/action.js:231-233 | no lower-case letter follows a hyphen in the result |
| Names.FirstOfCamelCase | src/www/action.js:231-233 | a lower-case first character of the result is the name's own first character |
| Names.CamelCaseJoin | src/www/action.js:231-233 | in a hyphen-free word followed by `-x`, the hyphen is removed and `x` is upper-cased |
| Names.PwLengthName | src/www/action.js:231-233 | `pw-length` becomes `pwLength` |
| Names.DoubleHyphenName | src/www/action.js:231-233 | matches do not overlap: `a--b` becomes `a-B` |

## Left out

- The SHA-2 digest, the UTF-8 encoding of the message and the byte order of the `Uint32Array` view (src/www/action.js:85-94): they are the parameter `Sha`, assumed only to give bits/32 words.
- `Math.random()` (src/www/action.js:180, 192): its results are passed in as draws in [0, 1).
- `randomHex`'s default length of 2 and `randomChars`'s `len` argument are the number of draws passed in.
- The asynchrony of the digest promise and of the callbacks: each callback's argument is returned.
- Uniquify.Uniquify: the source rehashes without bound; the model takes a rehash budget `fuel`, and `OutOfFuel` reports that the budget ran out. The success cases are stated completely; which inputs never succeed is not decided.
- Uniquify.EnforceConstraints: bounded by `fuel` in the same way.
- The `parseFloat` branch of `get` (src/www/action.js:333-334): a string matching the float regex is recognised, but it is kept as its text (`Float(text)`), which `set` writes back unchanged. Floating-point values are not modelled.
- Storage.Stringify: JavaScript's exponent notation for integers of 10^21 and more, and the loss of precision above 2^53, are not modelled; every integer is written out in full.
- Storage.ParseInt: the loss of precision above 2^53 is not modelled; a long digit string (a 16-digit salt, say) is read as its exact value.
- Hex.ToHex: `toString(16)` is modelled on non-negative integers only; `hexPad` is only called with non-negative integers.
- Hex.HexPad: requires `len >= 1`; with `len` 0 or less, `'0'.repeat(len - 1)` throws a RangeError in JavaScript. The source only calls it with 8 and 2.
- The `'extension'` flavour of `Storage` (`chrome.storage.sync`, src/www/action.js:313-317) and `localStorage` as real I/O: the store is a map from keys to strings.
- Settings fields are typed: a stored value of the wrong kind for a field (for instance a digit-only salt read back as a number) is shown at the level of `get`'s result by Storage.DigitsComeBackAsNumber, not carried into `Settings`.
- The page flow (src/www/action.js:366-780): `generatePassword`, `setMasterPassword`, `onPasswordSet`, the event listeners, restoring the forms, the accordion, environment detection and the tab-URL host regex. The DOM helpers `hide`, `show` and `getForm` (src/www/action.js:213-265) are also left out. This is user-interface code with nothing to state beyond what the modelled operations already state.
- `src/background.js`: the extension's page-rule registration, which is browser API wiring.
