/**
  `preprocess_text` (app/utils/helpers.py): strip the text, collapse every
  whitespace run to one space, then put a line break after `.`, `!` or `?`
  wherever optional whitespace and an uppercase ASCII letter follow.
 */
module Preprocess {
  import opened TextBasics

  /** `re.sub(r'\s+', ' ', s)`: every maximal whitespace run becomes one space. */
  function CollapseRuns(s: string): (r: string)
    ensures s != [] && !IsSpace(s[0]) ==> r != [] && r[0] == s[0]
    ensures s != [] && !IsSpace(s[|s| - 1]) ==> r != [] && r[|r| - 1] == s[|s| - 1]
    ensures SingleSpaced(r)
    decreases |s|
  {
    if s == [] then []
    else if IsSpace(s[0]) then
      var rest := CollapseRuns(TrimStart(s));
      SingleSpacedCons(' ', rest);
      " " + rest
    else
      var rest := CollapseRuns(s[1..]);
      SingleSpacedCons(s[0], rest);
      [s[0]] + rest
  }

  /** Stripped, and every whitespace run is one plain space. */
  predicate Collapsed(s: string) {
    Trimmed(s) && SingleSpaced(s)
  }

  /** Line 15 of `preprocess_text`. */
  function Collapse(text: string): (c: string)
    ensures Collapsed(c)
  {
    CollapseRuns(Strip(text))
  }

  /** The lookahead of line 18 succeeds on what follows a terminator: `\s*(?=[A-Z])`. */
  predicate BreakFollows(t: string) {
    var u := TrimStart(t);
    u != [] && IsUpper(u[0])
  }

  /**
    `re.sub(r'([.!?])\s*(?=[A-Z])', r'\1\n', s)`: a match replaces the terminator
    and its whitespace by the terminator and a line break; scanning resumes at the
    uppercase letter.
   */
  function Normalize(s: string): (r: string)
    ensures s != [] ==> r != [] && r[0] == s[0] && r[|r| - 1] == s[|s| - 1]
    decreases |s|
  {
    if s == [] then []
    else if IsTerminator(s[0]) && BreakFollows(s[1..]) then
      TrimStartLast(s[1..]);
      [s[0], '\n'] + Normalize(TrimStart(s[1..]))
    else [s[0]] + Normalize(s[1..])
  }

  /** `preprocess_text(text)`. */
  function PreprocessText(text: string): (p: string)
    ensures Trimmed(p)
  {
    Normalize(Collapse(text))
  }

  /** The shape of every text `preprocess_text` returns: stripped, and `Marked` (below). */
  predicate WellFormedOutput(p: string) {
    Trimmed(p) && Marked(p)
  }

  // ---------------------------------------------------------------------------
  // Reference definition: what each position of the collapsed text contributes.

  /** The terminator at `c[i]` precedes an uppercase letter, directly or across one whitespace. */
  predicate BreakAt(c: string, i: int)
    requires 0 <= i < |c|
  {
    IsTerminator(c[i]) && i + 1 < |c| &&
    (IsUpper(c[i + 1]) || (IsSpace(c[i + 1]) && i + 2 < |c| && IsUpper(c[i + 2])))
  }

  /** A space after a break disappears, a break gains a `'\n'`, every other character is kept. */
  function Emit(c: string, i: int): (e: string)
    requires 0 <= i < |c|
  {
    if 0 < i && IsSpace(c[i]) && BreakAt(c, i - 1) then []
    else if BreakAt(c, i) then [c[i], '\n']
    else [c[i]]
  }

  function EmitFrom(c: string, i: int): (e: string)
    requires 0 <= i <= |c|
    decreases |c| - i
  {
    if i == |c| then [] else Emit(c, i) + EmitFrom(c, i + 1)
  }

  /** Where scanning resumes after the terminator at `c[i]`: past at most one whitespace. */
  function ResumeAt(c: string, i: int): (j: int)
    requires 0 <= i < |c|
    ensures i + 1 <= j <= |c|
  {
    if i + 1 < |c| && IsSpace(c[i + 1]) then i + 2 else i + 1
  }

  lemma TrimAfter(c: string, i: int)
    requires NoAdjacentSpaces(c)
    requires 0 <= i < |c|
    ensures TrimStart(c[i + 1..]) == c[ResumeAt(c, i)..]
  {
    if i + 1 < |c| && IsSpace(c[i + 1]) {
      assert c[i + 1..][1..] == c[i + 2..];
      if i + 2 < |c| {
        assert !IsSpace(c[i + 2]);
      }
    }
  }

  /** After a terminator, the lookahead of line 18 succeeds exactly at a break. */
  lemma BreakFollowsAt(c: string, i: int)
    requires NoAdjacentSpaces(c)
    requires 0 <= i < |c| && IsTerminator(c[i])
    ensures BreakFollows(c[i + 1..]) <==> BreakAt(c, i)
  {
    TrimAfter(c, i);
    var j := ResumeAt(c, i);
    if j < |c| {
      assert c[j..][0] == c[j];
      if IsUpper(c[j]) {
        UpperIsNotSpace(c[j]);
      }
      if i + 1 < |c| && IsUpper(c[i + 1]) {
        UpperIsNotSpace(c[i + 1]);
      }
    }
  }

  /** After a break, scanning resumes at the uppercase letter. */
  lemma BreakResumes(c: string, i: int)
    requires 0 <= i < |c| && BreakAt(c, i)
    ensures ResumeAt(c, i) < |c| && IsUpper(c[ResumeAt(c, i)]) && !IsSpace(c[ResumeAt(c, i)])
  {
    if IsUpper(c[i + 1]) {
      UpperIsNotSpace(c[i + 1]);
    } else {
      UpperIsNotSpace(c[i + 2]);
    }
  }

  lemma UpperIsNotSpace(ch: char)
    requires IsUpper(ch)
    ensures !IsSpace(ch)
  {
  }

  /** One step of `Normalize` on a suffix of text without adjacent whitespace. */
  lemma NormalizeStep(c: string, i: int)
    requires NoAdjacentSpaces(c)
    requires 0 <= i < |c|
    ensures Normalize(c[i..]) ==
      if BreakAt(c, i) then [c[i], '\n'] + Normalize(c[ResumeAt(c, i)..])
      else [c[i]] + Normalize(c[i + 1..])
  {
    var s := c[i..];
    assert s[0] == c[i];
    assert s[1..] == c[i + 1..];
    TrimAfter(c, i);
    if IsTerminator(c[i]) {
      BreakFollowsAt(c, i);
    }
  }

  lemma EmitFromBreak(c: string, i: int)
    requires 0 <= i < |c| && BreakAt(c, i)
    ensures EmitFrom(c, i) == [c[i], '\n'] + EmitFrom(c, ResumeAt(c, i))
  {
    assert Emit(c, i) == [c[i], '\n'];
    if ResumeAt(c, i) == i + 2 {
      assert Emit(c, i + 1) == [];
      assert EmitFrom(c, i + 1) == EmitFrom(c, i + 2);
    }
  }

  lemma EmitFromPlain(c: string, i: int)
    requires 0 <= i < |c| && !BreakAt(c, i)
    requires !(0 < i && IsSpace(c[i]) && BreakAt(c, i - 1))
    ensures EmitFrom(c, i) == [c[i]] + EmitFrom(c, i + 1)
  {
    assert Emit(c, i) == [c[i]];
  }

  lemma {:induction false} NormalizeIsLocal(c: string, i: int)
    requires NoAdjacentSpaces(c)
    requires 0 <= i <= |c|
    requires !(0 < i < |c| && IsSpace(c[i]) && BreakAt(c, i - 1))
    ensures Normalize(c[i..]) == EmitFrom(c, i)
    decreases |c| - i
  {
    if i < |c| {
      NormalizeStep(c, i);
      if BreakAt(c, i) {
        EmitFromBreak(c, i);
        BreakResumes(c, i);
        NormalizeIsLocal(c, ResumeAt(c, i));
      } else {
        EmitFromPlain(c, i);
        NormalizeIsLocal(c, i + 1);
      }
    }
  }

  /** `preprocess_text` agrees with the position-by-position reference definition. */
  lemma PreprocessIsLocal(text: string)
    ensures PreprocessText(text) == EmitFrom(Collapse(text), 0)
  {
    var c := Collapse(text);
    NormalizeIsLocal(c, 0);
    assert c[0..] == c;
  }

  // ---------------------------------------------------------------------------
  // Line 15 is `' '.join(text.split())`.

  /** A word passes through `CollapseRuns` unchanged. */
  lemma {:induction false} CollapseRunsWord(w: string, r: string)
    requires forall i :: 0 <= i < |w| ==> !IsSpace(w[i])
    ensures CollapseRuns(w + r) == w + CollapseRuns(r)
    decreases |w|
  {
    if w != [] {
      assert (w + r)[0] == w[0];
      assert (w + r)[1..] == w[1..] + r;
      CollapseRunsWord(w[1..], r);
      ConsTail(w);
      AppendAssoc([w[0]], w[1..], CollapseRuns(r));
    } else {
      assert w + r == r;
    }
  }

  /** Leading whitespace never reaches a word. */
  lemma WordsTrimStart(s: string)
    ensures Words(TrimStart(s)) == Words(s)
  {
    var t := TrimStart(s);
    assert TrimStart(t) == t;
  }

  /** On stripped text, collapsing the runs joins the words with single spaces. */
  lemma {:induction false} CollapseRunsTrimmed(s: string)
    requires Trimmed(s)
    ensures CollapseRuns(s) == JoinSpaces(Words(s))
    decreases |s|
  {
    if s != [] {
      var w := LeadingWord(s);
      var r := s[|w|..];
      WordsUnfold(s);
      PrefixSuffix(s, |w|);
      CollapseRunsWord(w, r);
      if r == [] {
        assert Words(r) == [];
      } else {
        CollapseAcrossGap(s, w, r);
      }
    }
  }

  /** Text that starts with a word splits into that word and the words after it. */
  lemma WordsUnfold(s: string)
    requires s != [] && !IsSpace(s[0])
    ensures Words(s) == [LeadingWord(s)] + Words(s[|LeadingWord(s)|..])
  {
    assert TrimStart(s) == s;
  }

  lemma PrefixSuffix(s: string, k: int)
    requires 0 <= k <= |s|
    ensures s == s[..k] + s[k..]
  {
  }

  /** The step of `CollapseRunsTrimmed` where whitespace follows the first word. */
  lemma {:induction false} CollapseAcrossGap(s: string, w: string, r: string)
    requires Trimmed(s) && s != []
    requires w == LeadingWord(s) && r == s[|w|..] && r != []
    requires Words(s) == [w] + Words(r)
    requires CollapseRuns(s) == w + CollapseRuns(r)
    ensures CollapseRuns(s) == JoinSpaces(Words(s))
    decreases |s|, 0
  {
    assert IsSpace(r[0]);
    var r' := TrimStart(r);
    assert r[|r| - 1] == s[|s| - 1];
    assert r' != [] && r'[|r'| - 1] == r[|r| - 1];
    CollapseRunsTrimmed(r');
    WordsTrimStart(r);
    assert TrimStart(r') == r';
    assert Words(r) != [];
    JoinSpacesCons(w, Words(r));
    AppendAssoc(w, " ", CollapseRuns(r'));
  }

  lemma {:induction false} TrimStartAppendSpace(s: string, c: char)
    requires IsSpace(c)
    ensures TrimStart(s + [c]) == if TrimStart(s) == [] then [] else TrimStart(s) + [c]
  {
    if s == [] {
      assert [c][1..] == [];
    } else {
      assert (s + [c])[0] == s[0];
      if IsSpace(s[0]) {
        assert (s + [c])[1..] == s[1..] + [c];
        TrimStartAppendSpace(s[1..], c);
      }
    }
  }

  lemma {:induction false} LeadingWordAppendSpace(t: string, c: char)
    requires IsSpace(c)
    ensures LeadingWord(t + [c]) == LeadingWord(t)
  {
    if t == [] {
      assert [c][0] == c;
    } else {
      assert (t + [c])[0] == t[0];
      if !IsSpace(t[0]) {
        assert (t + [c])[1..] == t[1..] + [c];
        LeadingWordAppendSpace(t[1..], c);
      }
    }
  }

  /** A trailing whitespace character adds no word. */
  lemma {:induction false} WordsAppendSpace(s: string, c: char)
    requires IsSpace(c)
    ensures Words(s + [c]) == Words(s)
    decreases |s|
  {
    var t := TrimStart(s);
    if t == [] {
      WordsAppendSpaceBlank(s, c);
    } else {
      var w := LeadingWord(t);
      WordsStepAt(s, t, w);
      WordsAppendSpaceUnfold(s, c, t, w);
      WordsAppendSpace(t[|w|..], c);
    }
  }

  /** The step of `WordsAppendSpace` for text that is all whitespace. */
  lemma WordsAppendSpaceBlank(s: string, c: char)
    requires IsSpace(c) && TrimStart(s) == []
    ensures Words(s + [c]) == [] && Words(s) == []
  {
    TrimStartAppendSpace(s, c);
  }

  /** The step of `WordsAppendSpace` for text with a first word `w`: the appended text starts with it too. */
  lemma WordsAppendSpaceUnfold(s: string, c: char, t: string, w: string)
    requires IsSpace(c) && t == TrimStart(s) && t != [] && w == LeadingWord(t)
    ensures Words(s + [c]) == [w] + Words(t[|w|..] + [c])
  {
    TrimStartAppendSpace(s, c);
    LeadingWordAppendSpace(t, c);
    WordsStepAt(s + [c], t + [c], w);
    SliceSnoc(t, c, |w|);
  }

  lemma SliceSnoc(t: string, c: char, n: int)
    requires 0 <= n <= |t|
    ensures (t + [c])[n..] == t[n..] + [c]
  {
  }

  /** One step of `Words`. */
  lemma WordsStepAt(s: string, t: string, w: string)
    requires t == TrimStart(s) && t != [] && w == LeadingWord(t)
    ensures Words(s) == [w] + Words(t[|w|..])
  {
  }

  /** Trailing whitespace never reaches a word. */
  lemma {:induction false} WordsTrimEnd(s: string)
    ensures Words(TrimEnd(s)) == Words(s)
    decreases |s|
  {
    if s != [] && IsSpace(s[|s| - 1]) {
      var init := s[..|s| - 1];
      assert s == init + [s[|s| - 1]];
      WordsAppendSpace(init, s[|s| - 1]);
      WordsTrimEnd(init);
    }
  }

  /**
    Line 15 equals `' '.join(text.split())`: every maximal whitespace run between
    two words becomes exactly one space, and the runs at both ends disappear.
   */
  lemma CollapseIsJoinWords(text: string)
    ensures Collapse(text) == JoinSpaces(Words(text))
  {
    CollapseRunsTrimmed(Strip(text));
    WordsTrimEnd(TrimStart(text));
    WordsTrimStart(text);
  }

  // ---------------------------------------------------------------------------
  // The shape of the output.

  /** Only `' '` and `'\n'` occur as whitespace. */
  predicate OnlyBlanksAndBreaks(q: string) {
    forall i :: 0 <= i < |q| && IsSpace(q[i]) ==> q[i] == ' ' || q[i] == '\n'
  }

  /** Every line break sits between a terminator and an uppercase letter. */
  predicate BreaksPlaced(q: string) {
    forall i :: 0 <= i < |q| && q[i] == '\n' ==> 0 < i < |q| - 1 && IsTerminator(q[i - 1]) && IsUpper(q[i + 1])
  }

  /** No terminator is left before an uppercase letter, directly or across one space. */
  predicate NoUnmarkedBreak(q: string) {
    forall i :: 0 <= i < |q| - 1 && IsTerminator(q[i]) ==>
      !IsUpper(q[i + 1]) && !(q[i + 1] == ' ' && i + 2 < |q| && IsUpper(q[i + 2]))
  }

  /** The parts of `WellFormedOutput` that every suffix of the output satisfies. */
  predicate Marked(q: string) {
    NoAdjacentSpaces(q) && OnlyBlanksAndBreaks(q) && BreaksPlaced(q) && NoUnmarkedBreak(q)
  }

  lemma MarkedConsBreak(a: char, q: string)
    requires IsTerminator(a)
    requires q != [] && IsUpper(q[0])
    requires Marked(q)
    ensures Marked([a, '\n'] + q)
  {
    UpperIsNotSpace(q[0]);
    NoAdjacentConsBreak(a, q);
    OnlyConsBreak(a, q);
    PlacedConsBreak(a, q);
    UnmarkedConsBreak(a, q);
  }

  lemma NoAdjacentConsBreak(a: char, q: string)
    requires !IsSpace(a) && q != [] && !IsSpace(q[0]) && NoAdjacentSpaces(q)
    ensures NoAdjacentSpaces([a, '\n'] + q)
  {
    var r := [a, '\n'] + q;
    forall i | 0 <= i < |r| - 1 ensures !(IsSpace(r[i]) && IsSpace(r[i + 1])) {
      if i >= 2 {
        assert r[i] == q[i - 2] && r[i + 1] == q[i - 1];
      }
    }
  }

  lemma OnlyConsBreak(a: char, q: string)
    requires !IsSpace(a) && OnlyBlanksAndBreaks(q)
    ensures OnlyBlanksAndBreaks([a, '\n'] + q)
  {
    var r := [a, '\n'] + q;
    forall i | 2 <= i < |r| ensures IsSpace(r[i]) ==> r[i] == ' ' || r[i] == '\n' {
      assert r[i] == q[i - 2];
    }
  }

  lemma PlacedConsBreak(a: char, q: string)
    requires IsTerminator(a) && q != [] && IsUpper(q[0]) && BreaksPlaced(q)
    ensures BreaksPlaced([a, '\n'] + q)
  {
    var r := [a, '\n'] + q;
    forall i | 0 <= i < |r| && r[i] == '\n'
      ensures 0 < i < |r| - 1 && IsTerminator(r[i - 1]) && IsUpper(r[i + 1])
    {
      if i >= 2 {
        assert r[i] == q[i - 2];
        assert r[i - 1] == q[i - 3] && r[i + 1] == q[i - 1];
      }
    }
  }

  lemma UnmarkedConsBreak(a: char, q: string)
    requires NoUnmarkedBreak(q)
    ensures NoUnmarkedBreak([a, '\n'] + q)
  {
    var r := [a, '\n'] + q;
    forall i | 0 <= i < |r| - 1 && IsTerminator(r[i])
      ensures !IsUpper(r[i + 1]) && !(r[i + 1] == ' ' && i + 2 < |r| && IsUpper(r[i + 2]))
    {
      if i >= 2 {
        assert r[i] == q[i - 2] && r[i + 1] == q[i - 1];
        assert i + 2 < |r| ==> r[i + 2] == q[i];
      }
    }
  }

  lemma MarkedConsPlain(a: char, q: string)
    requires IsSpace(a) ==> a == ' ' && (q == [] || !IsSpace(q[0]))
    requires q == [] || q[0] != '\n'
    requires IsTerminator(a) && q != [] ==> !IsUpper(q[0]) && !(q[0] == ' ' && |q| > 1 && IsUpper(q[1]))
    requires Marked(q)
    ensures Marked([a] + q)
  {
    NoAdjacentConsPlain(a, q);
    OnlyConsPlain(a, q);
    PlacedConsPlain(a, q);
    UnmarkedConsPlain(a, q);
  }

  lemma NoAdjacentConsPlain(a: char, q: string)
    requires IsSpace(a) ==> q == [] || !IsSpace(q[0])
    requires NoAdjacentSpaces(q)
    ensures NoAdjacentSpaces([a] + q)
  {
    var r := [a] + q;
    forall i | 1 <= i < |r| - 1 ensures !(IsSpace(r[i]) && IsSpace(r[i + 1])) {
      assert r[i] == q[i - 1] && r[i + 1] == q[i];
    }
  }

  lemma OnlyConsPlain(a: char, q: string)
    requires IsSpace(a) ==> a == ' '
    requires OnlyBlanksAndBreaks(q)
    ensures OnlyBlanksAndBreaks([a] + q)
  {
    var r := [a] + q;
    forall i | 1 <= i < |r| ensures r[i] == q[i - 1] { }
  }

  lemma PlacedConsPlain(a: char, q: string)
    requires a != '\n'
    requires q == [] || q[0] != '\n'
    requires BreaksPlaced(q)
    ensures BreaksPlaced([a] + q)
  {
    var r := [a] + q;
    forall i | 0 <= i < |r| && r[i] == '\n'
      ensures 0 < i < |r| - 1 && IsTerminator(r[i - 1]) && IsUpper(r[i + 1])
    {
      assert i > 0;
      assert r[i] == q[i - 1];
    }
  }

  lemma UnmarkedConsPlain(a: char, q: string)
    requires IsTerminator(a) && q != [] ==> !IsUpper(q[0]) && !(q[0] == ' ' && |q| > 1 && IsUpper(q[1]))
    requires NoUnmarkedBreak(q)
    ensures NoUnmarkedBreak([a] + q)
  {
    var r := [a] + q;
    forall i | 1 <= i < |r| ensures r[i] == q[i - 1] { }
  }

  lemma {:induction false} NormalizeMarked(c: string, i: int)
    requires SingleSpaced(c)
    requires 0 <= i <= |c|
    ensures Marked(Normalize(c[i..]))
    decreases |c| - i
  {
    if i < |c| {
      if BreakAt(c, i) {
        NormalizeMarked(c, ResumeAt(c, i));
        MarkedBreakCase(c, i);
      } else {
        NormalizeMarked(c, i + 1);
        MarkedPlainCase(c, i);
      }
    }
  }

  lemma MarkedBreakCase(c: string, i: int)
    requires SingleSpaced(c)
    requires 0 <= i < |c| && BreakAt(c, i)
    requires Marked(Normalize(c[ResumeAt(c, i)..]))
    ensures Marked(Normalize(c[i..]))
  {
    NormalizeStep(c, i);
    var j := ResumeAt(c, i);
    assert c[j..] != [] && c[j..][0] == c[j];
    MarkedConsBreak(c[i], Normalize(c[j..]));
  }

  lemma MarkedPlainCase(c: string, i: int)
    requires SingleSpaced(c)
    requires 0 <= i < |c| && !BreakAt(c, i)
    requires Marked(Normalize(c[i + 1..]))
    ensures Marked(Normalize(c[i..]))
  {
    NormalizeStep(c, i);
    var q := Normalize(c[i + 1..]);
    PlainCaseFacts(c, i);
    MarkedConsPlain(c[i], q);
  }

  /** What `MarkedConsPlain` needs about the text after a position that is not a break. */
  lemma PlainCaseFacts(c: string, i: int)
    requires SingleSpaced(c)
    requires 0 <= i < |c| && !BreakAt(c, i)
    ensures var q := Normalize(c[i + 1..]);
      && (IsSpace(c[i]) ==> c[i] == ' ' && (q == [] || !IsSpace(q[0])))
      && (q == [] || q[0] != '\n')
      && (IsTerminator(c[i]) && q != [] ==> !IsUpper(q[0]) && !(q[0] == ' ' && |q| > 1 && IsUpper(q[1])))
  {
    var q := Normalize(c[i + 1..]);
    if i + 1 < |c| {
      assert c[i + 1..][0] == c[i + 1];
      assert q[0] == c[i + 1];
      assert !(IsSpace(c[i]) && IsSpace(c[i + 1]));
      if c[i + 1] == ' ' && i + 2 < |c| {
        SecondAfterSpace(c, i + 1);
      }
    }
  }

  lemma SecondAfterSpace(c: string, i: int)
    requires SingleSpaced(c)
    requires 0 <= i < |c| - 1 && c[i] == ' '
    ensures |Normalize(c[i..])| > 1 && Normalize(c[i..])[1] == c[i + 1]
  {
    var s := c[i..];
    assert s[1..] == c[i + 1..];
    assert !IsTerminator(s[0]);
    assert Normalize(s) == [s[0]] + Normalize(c[i + 1..]);
    assert c[i + 1..][0] == c[i + 1];
  }

  /** Stripped, no doubled whitespace, only `' '` and inserted `'\n'`, breaks marked. */
  lemma PreprocessWellFormed(text: string)
    ensures WellFormedOutput(PreprocessText(text))
  {
    var c := Collapse(text);
    assert c[0..] == c;
    NormalizeMarked(c, 0);
  }

  lemma NonSpacesCons(a: char, s: string)
    ensures NonSpaces([a] + s) == (if IsSpace(a) then [] else [a]) + NonSpaces(s)
  {
    assert ([a] + s)[1..] == s;
  }

  /** `Normalize` changes only whitespace: the other characters keep their order. */
  lemma {:induction false} NormalizeKeepsNonSpaces(s: string)
    ensures NonSpaces(Normalize(s)) == NonSpaces(s)
    decreases |s|
  {
    if s != [] {
      var rest := s[1..];
      if IsTerminator(s[0]) && BreakFollows(rest) {
        NormalizeKeepsNonSpaces(TrimStart(rest));
        NormalizeBreakStep(s);
      } else {
        NormalizeKeepsNonSpaces(rest);
        NormalizePlainStep(s);
      }
    }
  }

  lemma NormalizeBreakStep(s: string)
    requires s != [] && IsTerminator(s[0]) && BreakFollows(s[1..])
    requires NonSpaces(Normalize(TrimStart(s[1..]))) == NonSpaces(TrimStart(s[1..]))
    ensures NonSpaces(Normalize(s)) == NonSpaces(s)
  {
    NonSpacesUnfoldTerminator(s);
    NormalizeBreakUnfold(s);
    TerminatorMarkNonSpaces(s[0], Normalize(TrimStart(s[1..])));
    NonSpacesTrimStart(s[1..]);
  }

  lemma NormalizeBreakUnfold(s: string)
    requires s != [] && IsTerminator(s[0]) && BreakFollows(s[1..])
    ensures Normalize(s) == [s[0], '\n'] + Normalize(TrimStart(s[1..]))
  {
  }

  lemma NonSpacesUnfoldTerminator(s: string)
    requires s != [] && IsTerminator(s[0])
    ensures NonSpaces(s) == [s[0]] + NonSpaces(s[1..])
  {
  }

  lemma TerminatorMarkNonSpaces(a: char, n: string)
    requires IsTerminator(a)
    ensures NonSpaces([a, '\n'] + n) == [a] + NonSpaces(n)
  {
    assert [a, '\n'] + n == [a] + (['\n'] + n);
    NonSpacesCons(a, ['\n'] + n);
    NonSpacesCons('\n', n);
  }

  lemma NormalizePlainStep(s: string)
    requires s != [] && !(IsTerminator(s[0]) && BreakFollows(s[1..]))
    requires NonSpaces(Normalize(s[1..])) == NonSpaces(s[1..])
    ensures NonSpaces(Normalize(s)) == NonSpaces(s)
  {
    NonSpacesCons(s[0], Normalize(s[1..]));
  }

  lemma {:induction false} CollapseRunsKeepsNonSpaces(s: string)
    ensures NonSpaces(CollapseRuns(s)) == NonSpaces(s)
    decreases |s|
  {
    if s != [] {
      if IsSpace(s[0]) {
        CollapseRunsKeepsNonSpaces(TrimStart(s));
        NonSpacesTrimStart(s);
        NonSpacesAppend(" ", CollapseRuns(TrimStart(s)));
      } else {
        CollapseRunsKeepsNonSpaces(s[1..]);
        NonSpacesAppend([s[0]], CollapseRuns(s[1..]));
      }
    }
  }

  /** Every non-whitespace character of the input survives, in order. */
  lemma PreprocessKeepsNonSpaces(text: string)
    ensures NonSpaces(PreprocessText(text)) == NonSpaces(text)
  {
    NonSpacesTrimStart(text);
    NonSpacesTrimEnd(TrimStart(text));
    CollapseRunsKeepsNonSpaces(Strip(text));
    NormalizeKeepsNonSpaces(Collapse(text));
  }

  // ---------------------------------------------------------------------------
  // Idempotence.

  /** Every whitespace character replaced by a plain space. */
  function Blank(s: string): (r: string)
    ensures |r| == |s|
  {
    if s == [] then [] else [if IsSpace(s[0]) then ' ' else s[0]] + Blank(s[1..])
  }

  lemma {:induction false} BlankAt(s: string, i: int)
    requires 0 <= i < |s|
    ensures Blank(s)[i] == if IsSpace(s[i]) then ' ' else s[i]
  {
    if i > 0 {
      BlankAt(s[1..], i - 1);
    }
  }

  /** On text without doubled whitespace, line 15 only turns each whitespace character into a space. */
  lemma {:induction false} CollapseRunsSingle(s: string)
    requires NoAdjacentSpaces(s)
    ensures CollapseRuns(s) == Blank(s)
    decreases |s|
  {
    if s != [] {
      assert NoAdjacentSpaces(s[1..]) by {
        forall i | 0 <= i < |s[1..]| - 1 ensures !(IsSpace(s[1..][i]) && IsSpace(s[1..][i + 1])) {
          assert s[1..][i] == s[i + 1] && s[1..][i + 1] == s[i + 2];
        }
      }
      CollapseRunsSingle(s[1..]);
      if IsSpace(s[0]) {
        assert TrimStart(s) == TrimStart(s[1..]);
        if |s| > 1 {
          assert !IsSpace(s[1]);
          assert s[1..][0] == s[1];
        }
        assert TrimStart(s[1..]) == s[1..];
      }
    }
  }

  lemma CollapseSingle(p: string)
    requires Trimmed(p) && NoAdjacentSpaces(p)
    ensures Collapse(p) == Blank(p)
  {
    CollapseRunsSingle(p);
  }

  /** Line 15 leaves already collapsed text unchanged. */
  lemma CollapseFixesCollapsed(c: string)
    requires Collapsed(c)
    ensures Collapse(c) == c
  {
    CollapseSingle(c);
    forall i | 0 <= i < |c| ensures Blank(c)[i] == c[i] {
      BlankAt(c, i);
    }
  }

  lemma BlankNoAdjacent(p: string)
    requires NoAdjacentSpaces(p)
    ensures NoAdjacentSpaces(Blank(p))
  {
    var u := Blank(p);
    forall k | 0 <= k < |u| - 1 ensures !(IsSpace(u[k]) && IsSpace(u[k + 1])) {
      BlankAt(p, k);
      BlankAt(p, k + 1);
    }
  }

  /** What `WellFormedOutput` says about one position. */
  lemma WellFormedAt(p: string, i: int)
    requires WellFormedOutput(p)
    requires 0 <= i < |p| - 1 && IsTerminator(p[i])
    ensures IsSpace(p[i + 1]) ==> p[i + 1] == ' ' || p[i + 1] == '\n'
    ensures !IsUpper(p[i + 1]) && !(p[i + 1] == ' ' && i + 2 < |p| && IsUpper(p[i + 2]))
    ensures p[i + 1] == '\n' ==> i + 2 < |p| && IsUpper(p[i + 2])
  {
  }

  /** Where the blanked output has a break: exactly at a terminator followed by `'\n'`. */
  lemma BlankBreakAt(p: string, i: int)
    requires WellFormedOutput(p)
    requires 0 <= i < |p| && p[i] != '\n'
    ensures NoAdjacentSpaces(Blank(p))
    ensures BreakAt(Blank(p), i) <==> IsTerminator(p[i]) && i + 1 < |p| && p[i + 1] == '\n'
  {
    BlankNoAdjacent(p);
    BlankAt(p, i);
    if IsTerminator(p[i]) && i + 1 < |p| {
      WellFormedAt(p, i);
      BlankBreakAtTerminator(p, i);
    }
  }

  lemma BlankBreakAtTerminator(p: string, i: int)
    requires 0 <= i < |p| - 1 && IsTerminator(p[i])
    requires IsSpace(p[i + 1]) ==> p[i + 1] == ' ' || p[i + 1] == '\n'
    requires !IsUpper(p[i + 1]) && !(p[i + 1] == ' ' && i + 2 < |p| && IsUpper(p[i + 2]))
    requires p[i + 1] == '\n' ==> i + 2 < |p| && IsUpper(p[i + 2])
    ensures BreakAt(Blank(p), i) <==> p[i + 1] == '\n'
  {
    var u := Blank(p);
    BlankAt(p, i);
    BlankAt(p, i + 1);
    assert !IsUpper(u[i + 1]);
    if i + 2 < |p| {
      BlankAt(p, i + 2);
      assert IsUpper(u[i + 2]) == IsUpper(p[i + 2]) by {
        if IsUpper(p[i + 2]) {
          UpperIsNotSpace(p[i + 2]);
        }
      }
    }
  }

  lemma {:induction false} NormalizeBlank(p: string, i: int)
    requires WellFormedOutput(p)
    requires 0 <= i <= |p| && (i == |p| || p[i] != '\n')
    ensures Normalize(Blank(p)[i..]) == p[i..]
    decreases |p| - i
  {
    if i < |p| {
      BlankBreakAt(p, i);
      if BreakAt(Blank(p), i) {
        UpperIsNotSpace(p[i + 2]);
        NormalizeBlank(p, i + 2);
        NormalizeBlankBreak(p, i);
      } else {
        NormalizeBlank(p, i + 1);
        NormalizeBlankPlain(p, i);
      }
    }
  }

  lemma NormalizeBlankBreak(p: string, i: int)
    requires 0 <= i < |p| - 2 && IsTerminator(p[i]) && p[i + 1] == '\n'
    requires NoAdjacentSpaces(Blank(p)) && BreakAt(Blank(p), i)
    requires Normalize(Blank(p)[i + 2..]) == p[i + 2..]
    ensures Normalize(Blank(p)[i..]) == p[i..]
  {
    var u := Blank(p);
    NormalizeStep(u, i);
    BlankAt(p, i);
    BlankAt(p, i + 1);
    assert ResumeAt(u, i) == i + 2;
    SuffixCons2(p, i);
  }

  lemma NormalizeBlankPlain(p: string, i: int)
    requires 0 <= i < |p| && (IsSpace(p[i]) ==> p[i] == ' ')
    requires NoAdjacentSpaces(Blank(p)) && !BreakAt(Blank(p), i)
    requires Normalize(Blank(p)[i + 1..]) == p[i + 1..]
    ensures Normalize(Blank(p)[i..]) == p[i..]
  {
    var u := Blank(p);
    NormalizeStep(u, i);
    BlankAt(p, i);
    SuffixCons(p, i);
  }

  /** Text of the shape `preprocess_text` produces is left unchanged by it. */
  lemma PreprocessFixesWellFormed(p: string)
    requires WellFormedOutput(p)
    ensures PreprocessText(p) == p
  {
    CollapseSingle(p);
    NormalizeBlank(p, 0);
    SuffixWhole(p);
    SuffixWhole(Blank(p));
  }

  /** `preprocess_text(preprocess_text(t)) == preprocess_text(t)`. */
  lemma PreprocessIdempotent(text: string)
    ensures PreprocessText(PreprocessText(text)) == PreprocessText(text)
  {
    PreprocessWellFormed(text);
    PreprocessFixesWellFormed(PreprocessText(text));
  }
}
