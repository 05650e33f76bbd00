/** The cache key: how it is cut out of the request target, the `^\d{3}$`
    check that guards every handler, and the file name the key stands for. */
module CacheKey {

  /** `req.url.slice(1)`: the request target without its first character,
      whatever that character is; empty when the target is empty. */
  function KeyOf(url: string): (key: string)
    ensures |url| == 0 ==> key == ""
    ensures |url| > 0 ==> url == [url[0]] + key
  {
    if |url| == 0 then "" else url[1..]
  }

  /** `\d` of a JavaScript regular expression without the `u` flag: an ASCII digit. */
  predicate IsDigit(c: char)
  {
    '0' <= c <= '9'
  }

  /** Whether all of `s` matches `\d{n}`, anchored at both ends as `^…$` is
      without the multiline flag (no trailing newline is tolerated). */
  predicate MatchesDigits(s: string, n: nat)
    decreases n
  {
    if n == 0 then s == ""
    else s != "" && IsDigit(s[0]) && MatchesDigits(s[1..], n - 1)
  }

  /** The guard of the request callback: the key is non-empty and matches `^\d{3}$`. */
  predicate IsValidKey(key: string)
  {
    key != "" && MatchesDigits(key, 3)
  }

  predicate AllDigits(s: string)
  {
    forall i :: 0 <= i < |s| ==> IsDigit(s[i])
  }

  /** The anchored pattern `\d{n}` accepts exactly the strings of n digits. */
  lemma {:induction false} MatchesDigitsIff(s: string, n: nat)
    ensures MatchesDigits(s, n) <==> |s| == n && AllDigits(s)
    decreases n
  {
    if n > 0 && s != "" {
      MatchesDigitsIff(s[1..], n - 1);
      assert AllDigits(s) <==> IsDigit(s[0]) && AllDigits(s[1..]) by {
        if IsDigit(s[0]) && AllDigits(s[1..]) {
          forall i | 0 <= i < |s| ensures IsDigit(s[i]) {
            if i > 0 { assert s[i] == s[1..][i - 1]; }
          }
        }
        if AllDigits(s) {
          forall i | 0 <= i < |s[1..]| ensures IsDigit(s[1..][i]) {
            assert s[1..][i] == s[i + 1];
          }
        }
      }
    }
  }

  /** A key is valid exactly when it is three ASCII digits. */
  lemma ValidKeyIff(key: string)
    ensures IsValidKey(key) <==> |key| == 3 && AllDigits(key)
  {
    MatchesDigitsIff(key, 3);
  }

  /** The explicit emptiness test in front of the pattern never changes the verdict. */
  lemma EmptyGuardRedundant(key: string)
    ensures IsValidKey(key) <==> MatchesDigits(key, 3)
  {
    MatchesDigitsIff(key, 3);
  }

  /** Targets that are turned away and targets that are served. The first
      character is dropped whatever it is, so `x404` names key `404`. */
  lemma SampleTargets()
    ensures !IsValidKey(KeyOf("")) && !IsValidKey(KeyOf("/")) && !IsValidKey(KeyOf("/20"))
    ensures !IsValidKey(KeyOf("/2000")) && !IsValidKey(KeyOf("/200?x=1")) && !IsValidKey(KeyOf("/200\n"))
    ensures IsValidKey(KeyOf("/200")) && IsValidKey(KeyOf("/000")) && KeyOf("x404") == "404" && IsValidKey("404")
  {
    ValidKeyIff(KeyOf("/2000"));
    ValidKeyIff(KeyOf("/200?x=1"));
    ValidKeyIff(KeyOf("/200\n"));
  }

  // A decimal reading of keys: the valid keys are exactly the zero-padded
  // renderings of 0 to 999, so validity is purely syntactic (`000` passes).

  function DigitChar(d: nat): char
    requires d < 10
  {
    ('0' as int + d) as char
  }

  function DigitValue(c: char): nat
    requires IsDigit(c)
  {
    c as int - '0' as int
  }

  /** The key that names `code`, zero-padded to three digits. */
  function KeyFor(code: nat): (key: string)
    requires code < 1000
    ensures IsValidKey(key)
  {
    var key := [DigitChar(code / 100), DigitChar(code / 10 % 10), DigitChar(code % 10)];
    ValidKeyIff(key);
    key
  }

  /** The number a valid key spells in decimal. */
  function CodeOf(key: string): (code: nat)
    requires IsValidKey(key)
    ensures code < 1000
  {
    ValidKeyIff(key);
    100 * DigitValue(key[0]) + 10 * DigitValue(key[1]) + DigitValue(key[2])
  }

  lemma KeyForCodeOf(key: string)
    requires IsValidKey(key)
    ensures KeyFor(CodeOf(key)) == key
  {
    ValidKeyIff(key);
  }

  lemma CodeOfKeyFor(code: nat)
    requires code < 1000
    ensures CodeOf(KeyFor(code)) == code
  {
  }

  /** The valid keys are exactly the three-digit renderings of 0 to 999. */
  lemma ValidKeysAreCodes(key: string)
    ensures IsValidKey(key) <==> exists code: nat :: code < 1000 && KeyFor(code) == key
  {
    if IsValidKey(key) {
      KeyForCodeOf(key);
    }
  }

  const Extension: string := ".jpg"

  /** `getCacheFilePath` without the cache directory: `<key>.jpg`. */
  function FileName(key: string): string
  {
    key + Extension
  }

  /** Distinct keys name distinct files, so an operation on one key cannot
      reach the entry of another. */
  lemma FileNameInjective(a: string, b: string)
    ensures FileName(a) == FileName(b) <==> a == b
  {
    if FileName(a) == FileName(b) {
      assert |a| == |b|;
      assert a == FileName(a)[..|a|];
      assert b == FileName(b)[..|b|];
    }
  }
}
