/**
 * The short-code format that every handler taking a code checks first:
 * the anchored pattern ^[A-Za-z0-9]{6,8}$ (CODE_REGEX in backend/server.js).
 */
module CodeFormat {

  const MinCodeLength: nat := 6
  const MaxCodeLength: nat := 8

  /** One character of the class [A-Za-z0-9]: an ASCII letter or digit. */
  predicate IsAlphaNum(c: char) {
    ('A' <= c <= 'Z') || ('a' <= c <= 'z') || ('0' <= c <= '9')
  }

  /** A well-formed code: 6, 7 or 8 characters, each an ASCII letter or digit. */
  predicate IsValidCode(s: string) {
    MinCodeLength <= |s| <= MaxCodeLength &&
    forall i :: 0 <= i < |s| ==> IsAlphaNum(s[i])
  }

  /**
   * How an anchored bounded repetition ^C{min,max}$ of the character class
   * consumes its input: one class character at a time, never more than `max`
   * of them, and it accepts at the end of the input once `min` are consumed.
   */
  function MatchRepeat(s: string, min: nat, max: nat): bool
    decreases |s|
  {
    if |s| == 0 then min == 0
    else max > 0 && IsAlphaNum(s[0]) && MatchRepeat(s[1..], if min == 0 then 0 else min - 1, max - 1)
  }

  /** CODE_REGEX.test(s), read as the matcher above. */
  function CodeRegexTest(s: string): bool {
    MatchRepeat(s, MinCodeLength, MaxCodeLength)
  }

  /** The bounded repetition accepts exactly the strings of the right length over the class. */
  lemma {:induction false} MatchRepeatCharacterized(s: string, min: nat, max: nat)
    ensures MatchRepeat(s, min, max) <==>
            (min <= |s| <= max && forall i :: 0 <= i < |s| ==> IsAlphaNum(s[i]))
  {
    if |s| > 0 && max > 0 {
      var rest := s[1..];
      MatchRepeatCharacterized(rest, if min == 0 then 0 else min - 1, max - 1);
      assert forall i :: 1 <= i < |s| ==> s[i] == rest[i - 1];
    }
  }

  /** The regular expression and the length-and-alphabet reading of the format agree on every string. */
  lemma CodeRegexAgrees(s: string)
    ensures CodeRegexTest(s) <==> IsValidCode(s)
  {
    MatchRepeatCharacterized(s, MinCodeLength, MaxCodeLength);
  }

  /** Concrete verdicts: too short and bad characters are refused; "healthz" is a well-formed code. */
  lemma CodeFormatExamples()
    ensures !IsValidCode("ab") && !IsValidCode("valid!!")
    ensures !IsValidCode("api") && !IsValidCode("code") && IsValidCode("healthz")
    ensures IsValidCode("aB3dE9z") && !IsValidCode("abcdefghi")
  {
    assert !IsAlphaNum("valid!!"[5]);
  }
}
