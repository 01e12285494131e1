/**
  `validate_language_code` (app/utils/helpers.py): `re.match(r'^[a-z]{2}$', code)`.
  `re.match` anchors at the start; Python's `$` matches at the end of the string
  and also just before a newline that is the last character.
 */
module LanguageCode {
  import opened TextBasics
  import Schemas
  import Wrappers

  /** Python's `$` at position `p` of `s`. */
  predicate EndAnchor(s: string, p: nat) {
    p == |s| || (p == |s| - 1 && s[p] == '\n')
  }

  /** Two ASCII lowercase letters, then the end anchor. */
  function ValidateLanguageCode(code: string): (ok: bool)
    ensures ok <==> (|code| == 2 || (|code| == 3 && code[2] == '\n')) && IsLower(code[0]) && IsLower(code[1])
  {
    |code| >= 2 && IsLower(code[0]) && IsLower(code[1]) && EndAnchor(code, 2)
  }

  /** The valid codes are exactly `ab` and `ab\n` for lowercase `a`, `b`. */
  lemma ValidCodes(code: string)
    ensures ValidateLanguageCode(code) <==>
      exists a, b :: IsLower(a) && IsLower(b) && (code == [a, b] || code == [a, b, '\n'])
  {
  }

  /** A valid code is 2 or 3 characters long, never 4 or more. */
  lemma ValidCodeLength(code: string)
    requires ValidateLanguageCode(code)
    ensures 2 <= |code| <= 3
  {
  }

  /** A code that passes the check is an acceptable `LanguageDetectionResponse`. */
  lemma ValidCodeIsDetectable(code: string)
    requires ValidateLanguageCode(code)
    ensures Schemas.ParseLanguageDetectionResponse(map["detected_language" := Schemas.Str(code)])
      == Wrappers.Ok(Schemas.LanguageDetectionResponse(code))
  {
  }

  lemma Examples()
    ensures ValidateLanguageCode("en")
    ensures ValidateLanguageCode("vi")
    ensures !ValidateLanguageCode("eng")
    ensures !ValidateLanguageCode("EN")
    ensures !ValidateLanguageCode("e")
    ensures ValidateLanguageCode("en\n")
    ensures !ValidateLanguageCode("en\n\n")
  {
  }
}
