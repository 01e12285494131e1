/** `format_translation_result` (app/utils/helpers.py): the result dictionary. */
module ResultFormat {

  /** A value of the result dictionary: a string, or the integer count. */
  datatype FieldValue = Text(s: string) | Count(n: nat)

  /**
    The result record: the four strings copied as given and `character_count`
    equal to the length of the original, with no other key.
   */
  function FormatTranslationResult(original: string, translated: string, sourceLang: string, targetLang: string): (r: map<string, FieldValue>)
    ensures r.Keys == {"original", "translated", "source_language", "target_language", "character_count"}
    ensures r["original"] == Text(original) && r["translated"] == Text(translated)
    ensures r["source_language"] == Text(sourceLang) && r["target_language"] == Text(targetLang)
    ensures r["character_count"] == Count(|original|)
  {
    map["original" := Text(original), "translated" := Text(translated),
        "source_language" := Text(sourceLang), "target_language" := Text(targetLang),
        "character_count" := Count(|original|)]
  }

  /** The record loses nothing: equal records come from equal arguments. */
  lemma FormatInjective(o1: string, t1: string, s1: string, g1: string, o2: string, t2: string, s2: string, g2: string)
    requires FormatTranslationResult(o1, t1, s1, g1) == FormatTranslationResult(o2, t2, s2, g2)
    ensures o1 == o2 && t1 == t2 && s1 == s2 && g1 == g2
  {
  }

  lemma Example()
    ensures FormatTranslationResult("hello", "xin chào", "en", "vi")["character_count"] == Count(5)
  {
  }
}
