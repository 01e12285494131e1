# Translation service text utilities and request schemas, in Dafny

This project models the deterministic core of a small translation web service:

- the text utilities of `app/utils/helpers.py`:
  - `preprocess_text` collapses whitespace and puts a line break after `.`, `!` or `?` when an uppercase ASCII letter follows, directly or across one space;
  - `split_into_sentences` splits text at each whitespace run that follows `.`, `!` or `?`, dropping the run;
  - `truncate_text` keeps whole sentences while their summed lengths stay within `max_length`; the joining spaces are not counted;
  - `validate_language_code` checks a two-letter language code;
  - `format_translation_result` builds the result dictionary;
- the request and response models of `app/schemas/translation.py`, as validity rules over a decoded request body.

Strings are sequences of Dafny `char`s, which are Unicode scalar values. A Python `str` can also hold lone surrogates (U+D800 to U+DFFF); the model cannot.

Regular-expression character classes become predicates in `TextBasics`:

- `\s` and the whitespace that `str.strip()` removes are both `IsSpace`. It is the fixed set of code points for which `str.isspace()` holds: `\t`–`\r`, `\x1c`–`\x1f`, space, `\x85`, `\xa0`, `\u1680`, `\u2000`–`\u200a`, `\u2028`, `\u2029`, `\u202f`, `\u205f` and `\u3000`.
- `[A-Z]` and `[a-z]` are ASCII only.
- `[.!?]` is `IsTerminator`.

The `re.sub` and `re.split` calls become recursive functions that follow Python's left-to-right, non-overlapping scan, and the `re.match` call becomes a predicate:

- `re.sub(r'\s+', ' ', …)` is `Preprocess.CollapseRuns`.
- `re.sub(r'([.!?])\s*(?=[A-Z])', r'\1\n', …)` is `Preprocess.Normalize`.
- `re.split(r'(?<=[.!?])\s+', …)` is `Sentences.SplitFrom`.
- `re.match(r'^[a-z]{2}$', …)` is `LanguageCode.ValidateLanguageCode`. Python's `$` also matches before one final `'\n'`, and the model keeps that.

`truncate_text` keeps its loop: `Truncate.TruncateText` is a method with the source's running length and early `break`. It is proved equal to the function `Truncate.TruncateSpec`, and the lemmas about `Truncate.Fit` state what that function means.

The schemas are modelled the way pydantic validates them:

- A body is a map from keys to values. Each model lists its fields in declaration order.
- `Schemas.Errors` reports one error for each field that is missing, has the wrong type, or breaks a length bound.
- Undeclared keys are ignored.
- Each `Parse…` function returns either the record or the errors.

Modules:

- `Wrappers`: `Option` and `Result`.
- `TextBasics`: character classes, `str.strip()`, `NonSpaces`, `str.split()` and `' '.join`.
- `Preprocess`, `Sentences`, `Truncate`, `LanguageCode` and `ResultFormat`: the five helpers.
- `Schemas`: the six models.

`TranslationRequest` declares no `min_length` for `text`, so the empty string is accepted (`Schemas.EmptyTextIsTranslatable`).

## Model

| member | source | states |
|---|---|---|
| `TextBasics.TrimStart` | app/utils/helpers.py:15 | the left half of `str.strip()`: the result is a suffix, it does not start with whitespace, and everything removed is whitespace |
| `TextBasics.TrimEnd` | app/utils/helpers.py:15 | the right half of `str.strip()`: the result is a prefix, it does not end with whitespace, and everything removed is whitespace |
| `TextBasics.Strip` | app/utils/helpers.py:15 | `text.strip()` has no whitespace at either end and leaves text that is already stripped unchanged |
| `Preprocess.CollapseRuns` | app/utils/helpers.py:15 | after `re.sub(r'\s+', ' ', …)`, every whitespace character is a plain space and none is next to another; a non-whitespace first or last character is kept |
| `Preprocess.Collapse` | app/utils/helpers.py:15 | line 15 yields text that is stripped and single-spaced |
| `TextBasics.JoinSpaces` | app/utils/helpers.py:59 | `' '.join`: joining `k > 0` parts gives their summed lengths plus `k - 1` separator characters |
| `TextBasics.Words` | app/utils/helpers.py:15 | `str.split()`: the maximal whitespace-free runs, each a non-empty word without whitespace |
| `Preprocess.CollapseIsJoinWords` | app/utils/helpers.py:15 | line 15 equals `' '.join(text.split())`: the words of the text in order, each run of whitespace between two words replaced by exactly one space, nothing at either end |
| `Preprocess.CollapseRunsTrimmed` | app/utils/helpers.py:15 | on stripped text, `re.sub(r'\s+', ' ', …)` joins the words with single spaces |
| `Preprocess.WordsTrimStart` | app/utils/helpers.py:15 | leading whitespace does not change `str.split()` |
| `Preprocess.WordsTrimEnd` | app/utils/helpers.py:15 | trailing whitespace does not change `str.split()` |
| `Preprocess.CollapseRunsKeepsNonSpaces` | app/utils/helpers.py:15 | collapsing runs keeps every non-whitespace character, in order |
| `Preprocess.CollapseFixesCollapsed` | app/utils/helpers.py:15 | line 15 leaves stripped, single-spaced text unchanged |
| `Preprocess.Normalize` | app/utils/helpers.py:18 | the line-break substitution keeps the first and the last character |
| `Preprocess.NormalizeIsLocal` | app/utils/helpers.py:18 | on text without doubled whitespace, the scan of line 18 equals the position-by-position reference `EmitFrom` |
| `Preprocess.PreprocessIsLocal` | app/utils/helpers.py:14-20 | position by position: a terminator followed by an uppercase letter, directly or across one whitespace, gets exactly one `'\n'` and loses that whitespace; every other character of the collapsed text is kept in order |
| `Preprocess.NormalizeMarked` | app/utils/helpers.py:18 | the substitution leaves no doubled whitespace, puts every `'\n'` between a terminator and an uppercase letter, and leaves no terminator before an uppercase letter |
| `Preprocess.PreprocessText` | app/utils/helpers.py:4-20 | line 15 (`Collapse`) followed by line 18 (`Normalize`); the result has no whitespace at either end; the rows below state its other properties |
| `Preprocess.PreprocessWellFormed` | app/utils/helpers.py:14-20 | the output of `preprocess_text` is stripped, never has two whitespace characters in a row, and holds only `' '` and inserted `'\n'` as whitespace; each `'\n'` sits between a terminator and an uppercase letter; no terminator is left before an uppercase letter |
| `Preprocess.NormalizeKeepsNonSpaces` | app/utils/helpers.py:18 | the substitution only adds or removes whitespace |
| `Preprocess.PreprocessKeepsNonSpaces` | app/utils/helpers.py:14-20 | `preprocess_text` keeps every non-whitespace character of its input, in order |
| `Preprocess.PreprocessFixesWellFormed` | app/utils/helpers.py:14-20 | text of the output's shape is a fixed point of `preprocess_text` |
| `Preprocess.PreprocessIdempotent` | app/utils/helpers.py:14-20 | `preprocess_text(preprocess_text(t)) == preprocess_text(t)` |
| `Sentences.SplitFrom` | app/utils/helpers.py:32 | the `re.split` scan returns at least one piece; every piece but the last is non-empty and ends in a terminator |
| `Sentences.SplitIntoSentences` | app/utils/helpers.py:32 | never an empty list; every piece but the last is a non-empty sentence ending in `.`, `!` or `?`; the first piece is empty exactly for empty text |
| `Sentences.SplitSingleIff` | app/utils/helpers.py:32 | the result has one piece if and only if no whitespace follows a terminator, and that piece is then the whole text |
| `Sentences.SplitSeparated` | app/utils/helpers.py:32 | for every text: the text is the pieces with a non-empty whitespace run between each two of them, each run is dropped whole (every piece after the first is empty or starts with a non-whitespace character), and whitespace inside a piece is kept |
| `Sentences.SplitPiecesUnbroken` | app/utils/helpers.py:32 | no returned piece contains a terminator followed by whitespace |
| `Sentences.SplitKeepsNonSpaces` | app/utils/helpers.py:32 | joining the pieces gives back every non-whitespace character of the text, in order |
| `Sentences.SplitJoinRoundTrip` | app/utils/helpers.py:32 | on single-spaced text, `' '.join(split_into_sentences(t)) == t` |
| `Sentences.SplitJoinInverse` | app/utils/helpers.py:32 | splitting the single-space join of a list of sentences gives the list back |
| `Sentences.SplitExample` | app/utils/helpers.py:32 | `"Hello world. This is a test! Are you sure?"` splits into `"Hello world."`, `"This is a test!"` and `"Are you sure?"` |
| `Truncate.TruncateSpec` | app/utils/helpers.py:34-59 | `truncate_text` as written: text within the bound comes back unchanged, and a negative bound gives `""`; the rows below state what the kept sentences are |
| `Truncate.Fit` | app/utils/helpers.py:52-57 | the greedy scan of lines 52-57 keeps at most as many sentences as there are; `FitIsPrefix` and `FitLongest` state which ones |
| `Truncate.TruncateText` | app/utils/helpers.py:34-59 | the loop returns `text` unchanged when `len(text) <= max_length`, and otherwise `' '.join` of the sentences the greedy scan keeps |
| `Truncate.TruncateTextDefault` | app/utils/helpers.py:34 | the default bound is 1000: text of at most 1000 characters comes back unchanged |
| `Truncate.FitIsPrefix` | app/utils/helpers.py:52-57 | the kept sentences are a prefix of the sentence list |
| `Truncate.FitLongest` | app/utils/helpers.py:52-57 | the kept prefix fits the budget, and every longer prefix exceeds it |
| `Truncate.TruncateKeepsWholeSentences` | app/utils/helpers.py:48-59 | over the bound, the result is the first `k` whole sentences joined by spaces; their lengths fit `max_length` and the next sentence would not; the result is `""` exactly when the first sentence alone is too long; its length is at most `max_length + k - 1` |
| `Truncate.TruncateCanExceedBound` | app/utils/helpers.py:53-59 | `truncate_text("aaaa. bbbb.", 10)` returns the whole 11-character text |
| `Truncate.TruncateWithinSpec` | app/utils/helpers.py:48-59 | the corrected `truncate_text`, which also charges each joining space: text within the bound comes back unchanged, and a negative bound gives `""`; `TruncateWithinBound` states the rest |
| `Truncate.TruncateTextWithinBound` | app/utils/helpers.py:48-59 | the same loop with the joining spaces counted returns at most `max_length` characters for a non-negative bound |
| `Truncate.TruncateWithinBound` | app/utils/helpers.py:48-59 | with spaces counted, the result is a join of the first whole sentences; it fits a non-negative `max_length`, and adding the next sentence would not fit |
| `LanguageCode.ValidateLanguageCode` | app/utils/helpers.py:71 | true if and only if the code is two ASCII lowercase letters, optionally followed by one `'\n'` |
| `LanguageCode.ValidCodes` | app/utils/helpers.py:71 | the accepted codes are exactly `ab` and `ab\n` for lowercase letters `a` and `b` |
| `LanguageCode.ValidCodeLength` | app/utils/helpers.py:71 | an accepted code is 2 or 3 characters long |
| `LanguageCode.ValidCodeIsDetectable` | app/utils/helpers.py:71 | every accepted code is a valid `detected_language` of a `LanguageDetectionResponse` |
| `LanguageCode.Examples` | app/utils/helpers.py:71 | `"en"` and `"en\n"` are accepted; `"eng"`, `"EN"`, `"e"` and `"en\n\n"` are refused |
| `ResultFormat.FormatTranslationResult` | app/utils/helpers.py:86-92 | the result has exactly the keys `original`, `translated`, `source_language`, `target_language` and `character_count`; the four strings are copied as given; `character_count` is `len(original)` |
| `ResultFormat.FormatInjective` | app/utils/helpers.py:86-92 | equal results come from equal arguments |
| `ResultFormat.Example` | app/utils/helpers.py:91 | the count for `"hello"` is 5 |
| `Schemas.CheckField` | app/schemas/translation.py:62-77 | a field passes if and only if it is present, has its declared type, and is within its length bounds; `Missing` is reported exactly when the key is absent |
| `Schemas.Errors` | app/schemas/translation.py:3-85 | there are no errors if and only if every declared field conforms; there are no more errors than fields; each error names a declared field and the rule it breaks |
| `Schemas.ErrorsInOrder` | app/schemas/translation.py:3-85 | the errors are those of the failing fields at strictly increasing field indices, each with the rule its field breaks, and every other field conforms: one error per failing field, in declaration order |
| `Schemas.ErrorsReportEveryFailure` | app/schemas/translation.py:3-85 | every field that does not conform is reported |
| `Schemas.ErrorsIgnoreUndeclared` | app/schemas/translation.py:3-85 | bodies that agree on the declared fields have the same errors |
| `Schemas.ParseTranslationRequest` | app/schemas/translation.py:3-25 | valid if and only if `text`, `source_lang`, `target_lang`, `tone` and `domain` are all strings; the record holds those values; otherwise the errors are returned |
| `Schemas.ParseImageTranslationRequest` | app/schemas/translation.py:27-49 | valid if and only if `image` is bytes and `source_lang`, `target_lang`, `tone` and `domain` are strings |
| `Schemas.ParseTranslationResponse` | app/schemas/translation.py:51-57 | valid if and only if `translated_text` is a string, with no length bound |
| `Schemas.ParseLanguageDetectionRequest` | app/schemas/translation.py:59-67 | valid if and only if `text` is a string of 1 to 5000 characters |
| `Schemas.ParseLanguageDetectionResponse` | app/schemas/translation.py:69-77 | valid if and only if `detected_language` is a string of 2 to 5 characters |
| `Schemas.ParseErrorResponse` | app/schemas/translation.py:79-85 | valid if and only if `detail` is a string, with no length bound |
| `Schemas.TranslationRequestIgnoresExtraKeys` | app/schemas/translation.py:3-25 | adding undeclared keys leaves the result unchanged |
| `Schemas.ImageTranslationRequestIgnoresExtraKeys` | app/schemas/translation.py:27-49 | adding undeclared keys leaves the result unchanged |
| `Schemas.LanguageDetectionRequestIgnoresExtraKeys` | app/schemas/translation.py:59-67 | adding undeclared keys leaves the result unchanged |
| `Schemas.EmptyTextIsTranslatable` | app/schemas/translation.py:6-9 | the empty `text` is accepted |
| `Schemas.MissingTargetLang` | app/schemas/translation.py:14-17 | a request without `target_lang` is refused, with that field reported missing |
| `Schemas.DetectionTextBounds` | app/schemas/translation.py:62-67 | empty text is refused as too short, text over 5000 characters as too long, and anything in between is accepted |

## Left out

- The translation service, the HTTP routes, the app wiring and the settings are left out: they are network calls, framework glue and configuration.
  - `app/core/translation_service.py`, `app/api/routes.py`, `app/main.py` and `app/core/config.py` are not part of this model.
- Rate limiting, asynchronous execution and image decoding are left out, because they live in libraries outside the repository.
- Strings that hold lone surrogates (U+D800 to U+DFFF) are left out: a Dafny `char` is a Unicode scalar value.
- `IsSpace`, `IsUpper` and `IsLower` are fixed predicates. Unicode character-database lookups, other regex flags and locale behaviour are not modelled.
- `Truncate.TruncateText`: `max_length` is an unbounded integer. Python's `int` is unbounded too, so nothing is lost. A negative bound behaves as in the source: the result is `""`.
- `ResultFormat.FormatTranslationResult`: the result is a map, which has no order, so the insertion order of the Python dictionary is not modelled.
- `Schemas.ParseImageTranslationRequest`: a body value is already decoded into a string, bytes or something else. pydantic's lax coercion of a JSON string to `bytes` is left out, so a JSON body never supplies an image.
- `Schemas.ParseTranslationRequest`, `Schemas.ParseTranslationResponse`, `Schemas.ParseLanguageDetectionRequest`, `Schemas.ParseLanguageDetectionResponse` and `Schemas.ParseErrorResponse`: pydantic's lax coercion of `bytes` to a `str` field is left out, and `ParseImageTranslationRequest` leaves it out for its four `str` fields too. Numbers are coerced to neither `str` nor `bytes` by pydantic, and the model refuses them as well.
- `Schemas.Errors`: an error is the field name and the broken rule. pydantic's error messages, error locations and JSON error layout are not modelled.

## Findings

| source | as written | input that shows it | evidently intended | confidence | as-written member | corrected member |
|---|---|---|---|---|---|---|
| app/utils/helpers.py:53-59 | the running length counts the sentences only, not the spaces that `' '.join` adds, so the output can be longer than `max_length` | `truncate_text("aaaa. bbbb.", 10)` returns `"aaaa. bbbb."`, of length 11 | the docstring promises truncation "to a maximum length": each sentence after the first should also be charged its joining space | not executed | `Truncate.TruncateCanExceedBound` | `Truncate.TruncateTextWithinBound` |
