/**
  `truncate_text` (app/utils/helpers.py): keep whole sentences from the start
  while they fit a length budget, then join them with single spaces.
 */
module Truncate {
  import opened TextBasics
  import opened Sentences

  /** The default `max_length` of `truncate_text`. */
  const DefaultMaxLength := 1000

  /** What `parts` cost when each one is charged its length plus `gap`. */
  function Cost(parts: seq<string>, gap: nat): (n: nat) {
    if parts == [] then 0 else |parts[0]| + gap + Cost(parts[1..], gap)
  }

  /**
    The greedy scan: a sentence is kept while its cost still fits the budget
    left; the first one that does not fit ends the scan.
   */
  function Fit(sentences: seq<string>, budget: int, gap: nat): (kept: seq<string>)
    ensures |kept| <= |sentences|
  {
    if sentences == [] then []
    else if |sentences[0]| + gap <= budget then
      [sentences[0]] + Fit(sentences[1..], budget - |sentences[0]| - gap, gap)
    else []
  }

  /**
    `truncate_text(text, max_length)` as written: the running length counts
    the sentences only, not the spaces that join them.
   */
  function TruncateSpec(text: string, maxLength: int): (r: string)
    ensures |text| <= maxLength ==> r == text
    ensures maxLength < 0 ==> r == []
  {
    if |text| <= maxLength then text else JoinSpaces(Fit(SplitIntoSentences(text), maxLength, 0))
  }

  /** `truncate_text`: the loop over the sentences with its running length and early exit. */
  method TruncateText(text: string, maxLength: int) returns (r: string)
    ensures |text| <= maxLength ==> r == text
    ensures r == TruncateSpec(text, maxLength)
  {
    if |text| <= maxLength {
      return text;
    }
    var sentences := SplitIntoSentences(text);
    var truncated: seq<string> := [];
    var currentLength := 0;
    var i := 0;
    while i < |sentences|
      invariant 0 <= i <= |sentences|
      invariant truncated == sentences[..i]
      invariant currentLength == Cost(truncated, 0)
      invariant Fit(sentences, maxLength, 0) == truncated + Fit(sentences[i..], maxLength - currentLength, 0)
    {
      var sentence := sentences[i];
      if currentLength + |sentence| <= maxLength {
        FitAdvance(sentences, maxLength, i, truncated, maxLength - currentLength, 0, maxLength - (currentLength + |sentence|));
        truncated := truncated + [sentence];
        currentLength := currentLength + |sentence|;
      } else {
        FitStop(sentences, i, maxLength - currentLength, 0);
        break;
      }
      i := i + 1;
    }
    assert Fit(sentences, maxLength, 0) == truncated;
    r := JoinSpaces(truncated);
  }

  /** `truncate_text(text)` with the default bound. */
  method TruncateTextDefault(text: string) returns (r: string)
    ensures |text| <= 1000 ==> r == text
    ensures r == TruncateSpec(text, DefaultMaxLength)
  {
    r := TruncateText(text, DefaultMaxLength);
  }

  // ---------------------------------------------------------------------------

  /** The kept sentences are a prefix of the input. */
  lemma {:induction false} FitIsPrefix(sentences: seq<string>, budget: int, gap: nat)
    ensures var kept := Fit(sentences, budget, gap); |kept| <= |sentences| && kept == sentences[..|kept|]
  {
    if sentences != [] && |sentences[0]| + gap <= budget {
      FitIsPrefix(sentences[1..], budget - |sentences[0]| - gap, gap);
    }
  }

  lemma FitStep(sentences: seq<string>, i: int, budget: int, gap: nat, next: int)
    requires 0 <= i < |sentences| && |sentences[i]| + gap <= budget
    requires next == budget - |sentences[i]| - gap
    ensures Fit(sentences[i..], budget, gap) == [sentences[i]] + Fit(sentences[i + 1..], next, gap)
  {
    assert sentences[i..][1..] == sentences[i + 1..];
  }

  /** One kept sentence: the loop's invariant carries over to the next position. */
  lemma FitAdvance(sentences: seq<string>, total: int, i: int, truncated: seq<string>, budget: int, gap: nat, next: int)
    requires 0 <= i < |sentences| && truncated == sentences[..i]
    requires Fit(sentences, total, gap) == truncated + Fit(sentences[i..], budget, gap)
    requires |sentences[i]| + gap <= budget && next == budget - |sentences[i]| - gap
    ensures truncated + [sentences[i]] == sentences[..i + 1]
    ensures Fit(sentences, total, gap) == (truncated + [sentences[i]]) + Fit(sentences[i + 1..], next, gap)
    ensures Cost(truncated + [sentences[i]], gap) == Cost(truncated, gap) + |sentences[i]| + gap
  {
    FitStep(sentences, i, budget, gap, next);
    MoveAcross(truncated, sentences[i], Fit(sentences[i + 1..], next, gap));
    CostSnoc(truncated, sentences[i], gap);
    assert sentences[..i + 1] == sentences[..i] + [sentences[i]];
  }

  lemma MoveAcross(front: seq<string>, s: string, back: seq<string>)
    ensures front + ([s] + back) == (front + [s]) + back
  {
  }

  lemma FitStop(sentences: seq<string>, i: int, budget: int, gap: nat)
    requires 0 <= i < |sentences| && |sentences[i]| + gap > budget
    ensures Fit(sentences[i..], budget, gap) == []
  {
    assert sentences[i..][0] == sentences[i];
  }

  lemma {:induction false} CostSnoc(parts: seq<string>, s: string, gap: nat)
    ensures Cost(parts + [s], gap) == Cost(parts, gap) + |s| + gap
  {
    if parts != [] {
      assert (parts + [s])[1..] == parts[1..] + [s];
      CostSnoc(parts[1..], s, gap);
    } else {
      assert [] + [s] == [s];
    }
  }

  lemma {:induction false} CostSpaces(parts: seq<string>)
    ensures Cost(parts, 0) == SumLengths(parts)
    ensures Cost(parts, 1) == SumLengths(parts) + |parts|
  {
    if parts != [] {
      CostSpaces(parts[1..]);
    }
  }

  /**
    The scan keeps the longest prefix that fits: what it keeps fits the
    budget, and each longer prefix costs more than the budget.
   */
  lemma {:induction false} FitLongest(sentences: seq<string>, budget: int, gap: nat)
    ensures var k := |Fit(sentences, budget, gap)|;
      k <= |sentences| &&
      (k > 0 ==> Cost(sentences[..k], gap) <= budget) &&
      (forall j :: k < j <= |sentences| ==> Cost(sentences[..j], gap) > budget)
  {
    if sentences != [] {
      var s, tail := sentences[0], sentences[1..];
      var k := |Fit(sentences, budget, gap)|;
      FitIsPrefix(sentences, budget, gap);
      forall j | 0 < j <= |sentences| ensures sentences[..j][0] == s && sentences[..j][1..] == tail[..j - 1] { }
      if |s| + gap <= budget {
        FitLongest(tail, budget - |s| - gap, gap);
      }
      assert forall j :: 0 < j <= |sentences| ==> Cost(sentences[..j], gap) == |s| + gap + Cost(tail[..j - 1], gap);
    }
  }

  /**
    What `truncate_text` returns once `text` is over the bound: the first `k`
    sentences, whole, joined by single spaces, where the first `k` fit and the
    next one would not; `""` exactly when the first sentence alone is too long;
    at most `maxLength + k - 1` characters.
   */
  lemma TruncateKeepsWholeSentences(text: string, maxLength: int)
    requires |text| > maxLength
    ensures var S := SplitIntoSentences(text);
      var k := |Fit(S, maxLength, 0)|;
      var r := TruncateSpec(text, maxLength);
      0 <= k <= |S| &&
      r == JoinSpaces(S[..k]) &&
      (k > 0 ==> SumLengths(S[..k]) <= maxLength) &&
      (k < |S| ==> SumLengths(S[..k + 1]) > maxLength) &&
      (r == [] <==> |S[0]| > maxLength) &&
      (k > 0 ==> |r| == SumLengths(S[..k]) + k - 1 <= maxLength + k - 1)
  {
    var S := SplitIntoSentences(text);
    var kept := Fit(S, maxLength, 0);
    var k := |kept|;
    FitIsPrefix(S, maxLength, 0);
    FitLongest(S, maxLength, 0);
    CostSpaces(kept);
    if k < |S| {
      CostSpaces(S[..k + 1]);
    }
    if k > 0 {
      assert kept[0] == S[0];
      assert S[0] != [];
    } else {
      assert S[..1] == [S[0]];
    }
  }

  // ---------------------------------------------------------------------------
  // The joining spaces are not counted

  lemma CanExceedSentences()
    ensures SentenceList(["aaaa.", "bbbb."])
  {
    assert NoSplitPoint("aaaa.") && NoSplitPoint("bbbb.");
  }

  lemma CanExceedJoin()
    ensures JoinSpaces(["aaaa.", "bbbb."]) == "aaaa. bbbb."
  {
  }

  lemma CanExceedSplit()
    ensures SplitIntoSentences("aaaa. bbbb.") == ["aaaa.", "bbbb."]
  {
    CanExceedSentences();
    SplitJoinInverse(["aaaa.", "bbbb."]);
    CanExceedJoin();
  }

  lemma CanExceedFit()
    ensures Fit(["aaaa.", "bbbb."], 10, 0) == ["aaaa.", "bbbb."]
  {
    var S := ["aaaa.", "bbbb."];
    assert S[1..] == ["bbbb."];
  }

  /**
    As written, `truncate_text("aaaa. bbbb.", 10)` returns all 11 characters:
    both 5-character sentences fit the count of 10, and the space between them
    is never charged.
   */
  lemma TruncateCanExceedBound()
    ensures TruncateSpec("aaaa. bbbb.", 10) == "aaaa. bbbb."
    ensures |TruncateSpec("aaaa. bbbb.", 10)| > 10
  {
    CanExceedSplit();
    CanExceedFit();
    CanExceedJoin();
  }

  /**
    The evidently intended `truncate_text`: each sentence after the first is
    also charged the space that joins it, so the budget bounds the output.
   */
  function TruncateWithinSpec(text: string, maxLength: int): (r: string)
    ensures |text| <= maxLength ==> r == text
    ensures maxLength < 0 ==> r == []
  {
    if |text| <= maxLength then text else JoinSpaces(Fit(SplitIntoSentences(text), maxLength + 1, 1))
  }

  /** The same loop, with the running length counting the joining spaces. */
  method TruncateTextWithinBound(text: string, maxLength: int) returns (r: string)
    ensures |text| <= maxLength ==> r == text
    ensures r == TruncateWithinSpec(text, maxLength)
    ensures maxLength >= 0 ==> |r| <= maxLength
  {
    if |text| <= maxLength {
      return text;
    }
    var sentences := SplitIntoSentences(text);
    var truncated: seq<string> := [];
    var currentLength := 0;
    var i := 0;
    while i < |sentences|
      invariant 0 <= i <= |sentences|
      invariant truncated == sentences[..i]
      invariant currentLength + (if truncated == [] then 0 else 1) == Cost(truncated, 1)
      invariant Fit(sentences, maxLength + 1, 1)
        == truncated + Fit(sentences[i..], maxLength - currentLength + (if truncated == [] then 1 else 0), 1)
    {
      var sentence := sentences[i];
      var cost := if truncated == [] then |sentence| else |sentence| + 1;
      var budget := maxLength - currentLength + (if truncated == [] then 1 else 0);
      if currentLength + cost <= maxLength {
        FitAdvance(sentences, maxLength + 1, i, truncated, budget, 1, maxLength - (currentLength + cost));
        truncated := truncated + [sentence];
        currentLength := currentLength + cost;
      } else {
        FitStop(sentences, i, budget, 1);
        break;
      }
      i := i + 1;
    }
    assert Fit(sentences, maxLength + 1, 1) == truncated;
    r := JoinSpaces(truncated);
    TruncateWithinBound(text, maxLength);
  }

  /**
    The corrected truncation keeps the first `k` whole sentences, never
    exceeds a non-negative bound, and adding the next sentence would.
   */
  lemma TruncateWithinBound(text: string, maxLength: int)
    requires |text| > maxLength
    ensures var S := SplitIntoSentences(text);
      var k := |Fit(S, maxLength + 1, 1)|;
      var r := TruncateWithinSpec(text, maxLength);
      0 <= k <= |S| &&
      r == JoinSpaces(S[..k]) &&
      (maxLength >= 0 ==> |r| <= maxLength) &&
      (k < |S| ==> |JoinSpaces(S[..k + 1])| > maxLength)
  {
    var S := SplitIntoSentences(text);
    var kept := Fit(S, maxLength + 1, 1);
    var k := |kept|;
    FitIsPrefix(S, maxLength + 1, 1);
    FitLongest(S, maxLength + 1, 1);
    CostSpaces(kept);
    if k < |S| {
      CostSpaces(S[..k + 1]);
    }
  }
}
