/**
  `split_into_sentences` (app/utils/helpers.py): `re.split(r'(?<=[.!?])\s+', text)`.
  A split consumes a maximal whitespace run whose previous character is `.`, `!`
  or `?`; the terminator stays with the sentence before it.
 */
module Sentences {
  import opened TextBasics

  /** The pattern matches at `s[i]`: a whitespace character right after a terminator. */
  predicate SplitsAt(s: string, i: int)
    requires 0 < i < |s|
  {
    IsTerminator(s[i - 1]) && IsSpace(s[i])
  }

  /** A sentence in front of sentences: every piece but the last still ends in a terminator. */
  lemma SentencesCons(piece: string, tail: seq<string>)
    requires piece != [] && IsTerminator(piece[|piece| - 1])
    requires |tail| >= 1
    requires forall k :: 0 <= k < |tail| - 1 ==> tail[k] != [] && IsTerminator(tail[k][|tail[k]| - 1])
    ensures forall k :: 0 <= k < |[piece] + tail| - 1 ==>
      ([piece] + tail)[k] != [] && IsTerminator(([piece] + tail)[k][|([piece] + tail)[k]| - 1])
  {
    var r := [piece] + tail;
    forall k | 1 <= k < |r| ensures r[k] == tail[k - 1] { }
  }

  /** No split point in `s`. */
  predicate NoSplitPoint(s: string) {
    forall i :: 0 < i < |s| ==> !SplitsAt(s, i)
  }

  /**
    The scan of `re.split`: `piece` is the sentence read so far and `rest` the
    unread text. When the lookbehind sees a terminator at the end of `piece` and
    `rest` starts with whitespace, the whole run is dropped and a new piece begins.
   */
  function SplitFrom(piece: string, rest: string): (r: seq<string>)
    ensures |r| >= 1
    ensures forall k :: 0 <= k < |r| - 1 ==> r[k] != [] && IsTerminator(r[k][|r[k]| - 1])
    ensures piece != [] || rest != [] ==> r[0] != []
    decreases |rest|
  {
    if rest == [] then [piece]
    else if piece != [] && IsTerminator(piece[|piece| - 1]) && IsSpace(rest[0]) then
      var tail := SplitFrom([], TrimStart(rest));
      SentencesCons(piece, tail);
      [piece] + tail
    else SplitFrom(piece + [rest[0]], rest[1..])
  }

  /**
    `split_into_sentences(text)`: never empty; every piece but the last is a
    non-empty sentence ending in `.`, `!` or `?`; the first piece is empty only
    for empty text.
   */
  function SplitIntoSentences(text: string): (r: seq<string>)
    ensures |r| >= 1
    ensures forall k :: 0 <= k < |r| - 1 ==> r[k] != [] && IsTerminator(r[k][|r[k]| - 1])
    ensures r[0] == [] <==> text == []
  {
    SplitFrom([], text)
  }

  // ---------------------------------------------------------------------------

  lemma {:induction false} SplitFromSingle(piece: string, rest: string)
    ensures |SplitFrom(piece, rest)| == 1 <==>
      forall j :: |piece| <= j < |piece| + |rest| && 0 < j ==> !SplitsAt(piece + rest, j)
    ensures |SplitFrom(piece, rest)| == 1 ==> SplitFrom(piece, rest) == [piece + rest]
    decreases |rest|
  {
    var w := piece + rest;
    if rest == [] {
      assert w == piece;
    } else if piece != [] && IsTerminator(piece[|piece| - 1]) && IsSpace(rest[0]) {
      assert w[|piece| - 1] == piece[|piece| - 1] && w[|piece|] == rest[0];
      assert SplitsAt(w, |piece|);
    } else {
      var piece', rest' := piece + [rest[0]], rest[1..];
      assert piece' + rest' == w;
      SplitFromSingle(piece', rest');
      if |piece| > 0 {
        assert w[|piece| - 1] == piece[|piece| - 1] && w[|piece|] == rest[0];
        assert !SplitsAt(w, |piece|);
      }
    }
  }

  /** Text without a terminator-then-whitespace comes back as `[text]`, and only such text. */
  lemma SplitSingleIff(text: string)
    ensures |SplitIntoSentences(text)| == 1 <==> NoSplitPoint(text)
    ensures NoSplitPoint(text) ==> SplitIntoSentences(text) == [text]
  {
    SplitFromSingle([], text);
    assert [] + text == text;
  }

  /** No piece contains a split point. */
  lemma {:induction false} SplitFromUnbroken(piece: string, rest: string)
    requires NoSplitPoint(piece)
    ensures forall k :: 0 <= k < |SplitFrom(piece, rest)| ==> NoSplitPoint(SplitFrom(piece, rest)[k])
    decreases |rest|
  {
    if rest == [] {
    } else if piece != [] && IsTerminator(piece[|piece| - 1]) && IsSpace(rest[0]) {
      SplitFromUnbroken([], TrimStart(rest));
    } else {
      var piece' := piece + [rest[0]];
      forall i | 0 < i < |piece'| ensures !SplitsAt(piece', i) {
        if i < |piece| {
          assert piece'[i - 1] == piece[i - 1] && piece'[i] == piece[i];
          assert !SplitsAt(piece, i);
        }
      }
      SplitFromUnbroken(piece', rest[1..]);
    }
  }

  /** No sentence returned contains a terminator followed by whitespace. */
  lemma SplitPiecesUnbroken(text: string)
    ensures forall k :: 0 <= k < |SplitIntoSentences(text)| ==> NoSplitPoint(SplitIntoSentences(text)[k])
  {
    SplitFromUnbroken([], text);
  }

  // ---------------------------------------------------------------------------
  // What lies between the pieces.

  /** A non-empty run of whitespace. */
  predicate IsGap(g: string) {
    g != [] && forall i :: 0 <= i < |g| ==> IsSpace(g[i])
  }

  /** `pieces[0] + gaps[0] + pieces[1] + … + pieces[n]`. */
  function Rejoin(pieces: seq<string>, gaps: seq<string>): (t: string)
    requires |pieces| == |gaps| + 1
    decreases |gaps|
  {
    if gaps == [] then pieces[0] else pieces[0] + gaps[0] + Rejoin(pieces[1..], gaps[1..])
  }

  /**
    `text` is the pieces with the whitespace runs `gaps` between them, and each
    run is maximal: every piece after the first is empty or starts with a
    character that is not whitespace.
   */
  predicate SeparatedBy(text: string, pieces: seq<string>, gaps: seq<string>) {
    && |pieces| == |gaps| + 1
    && (forall k :: 0 <= k < |gaps| ==> IsGap(gaps[k]))
    && (forall k :: 0 < k < |pieces| ==> pieces[k] == [] || !IsSpace(pieces[k][0]))
    && Rejoin(pieces, gaps) == text
  }

  /** The first piece starts where the scan does. */
  lemma {:induction false} SplitFromHead(piece: string, rest: string)
    ensures var r := SplitFrom(piece, rest);
      piece + rest != [] ==> r[0] != [] && r[0][0] == (piece + rest)[0]
    decreases |rest|
  {
    if rest != [] && !(piece != [] && IsTerminator(piece[|piece| - 1]) && IsSpace(rest[0])) {
      SplitFromHead(piece + [rest[0]], rest[1..]);
      ShiftOne(piece, rest);
    }
  }

  /** The whitespace `re.split` drops at a split point: the leading run of `rest`. */
  lemma LeadingGap(rest: string)
    requires rest != [] && IsSpace(rest[0])
    ensures var g := rest[..|rest| - |TrimStart(rest)|]; IsGap(g) && rest == g + TrimStart(rest)
  {
    var t := TrimStart(rest);
    var n := |rest| - |t|;
    GapIsSpace(rest, n);
    SplitAt(rest, n);
  }

  lemma GapIsSpace(rest: string, n: int)
    requires 0 < n <= |rest|
    requires forall i :: 0 <= i < n ==> IsSpace(rest[i])
    ensures IsGap(rest[..n])
  {
    var g := rest[..n];
    forall i | 0 <= i < |g| ensures IsSpace(g[i]) {
      assert g[i] == rest[i];
    }
  }

  lemma SplitAt(s: string, n: int)
    requires 0 <= n <= |s|
    ensures s == s[..n] + s[n..]
  {
  }

  lemma {:induction false} SplitFromSeparated(piece: string, rest: string)
    ensures exists gaps :: SeparatedBy(piece + rest, SplitFrom(piece, rest), gaps)
    decreases |rest|
  {
    if rest == [] {
      var none: seq<string> := [];
      assert piece + rest == piece;
      assert SplitFrom(piece, rest) == [piece];
      assert SeparatedBy(piece + rest, [piece], none);
    } else if piece != [] && IsTerminator(piece[|piece| - 1]) && IsSpace(rest[0]) {
      SplitFromSeparated([], TrimStart(rest));
      var gaps :| SeparatedBy([] + TrimStart(rest), SplitFrom([], TrimStart(rest)), gaps);
      assert [] + TrimStart(rest) == TrimStart(rest);
      SeparatedAtSplit(piece, rest, gaps);
    } else {
      SplitFromSeparated(piece + [rest[0]], rest[1..]);
      var gaps :| SeparatedBy((piece + [rest[0]]) + rest[1..], SplitFrom(piece + [rest[0]], rest[1..]), gaps);
      ShiftOne(piece, rest);
      assert SeparatedBy(piece + rest, SplitFrom(piece, rest), gaps);
    }
  }

  /** The split step of `SplitFromSeparated`: the dropped run becomes the first gap. */
  lemma SeparatedAtSplit(piece: string, rest: string, gaps: seq<string>)
    requires rest != [] && piece != [] && IsTerminator(piece[|piece| - 1]) && IsSpace(rest[0])
    requires SeparatedBy(TrimStart(rest), SplitFrom([], TrimStart(rest)), gaps)
    ensures exists gaps' :: SeparatedBy(piece + rest, SplitFrom(piece, rest), gaps')
  {
    var t := TrimStart(rest);
    var g := rest[..|rest| - |t|];
    LeadingGap(rest);
    NextPieceHead(t);
    SplitFromAtSplit(piece, rest);
    SeparatedCons(piece + rest, piece, g, t, SplitFrom([], t), gaps);
    assert SeparatedBy(piece + rest, SplitFrom(piece, rest), [g] + gaps);
  }

  lemma SplitFromAtSplit(piece: string, rest: string)
    requires rest != [] && piece != [] && IsTerminator(piece[|piece| - 1]) && IsSpace(rest[0])
    ensures SplitFrom(piece, rest) == [piece] + SplitFrom([], TrimStart(rest))
  {
  }

  /** A piece that begins after a dropped run does not start with whitespace. */
  lemma NextPieceHead(t: string)
    requires t == [] || !IsSpace(t[0])
    ensures SplitFrom([], t)[0] == [] || !IsSpace(SplitFrom([], t)[0][0])
  {
    SplitFromHead([], t);
    assert [] + t == t;
  }

  /** Putting a piece and a run in front of a separated text. */
  lemma SeparatedCons(text: string, p: string, g: string, t: string, tail: seq<string>, gaps: seq<string>)
    requires IsGap(g) && text == p + (g + t)
    requires SeparatedBy(t, tail, gaps)
    requires tail[0] == [] || !IsSpace(tail[0][0])
    ensures SeparatedBy(text, [p] + tail, [g] + gaps)
  {
    var r := [p] + tail;
    var gs := [g] + gaps;
    assert r[1..] == tail && gs[1..] == gaps;
    assert Rejoin(r, gs) == p + g + t;
    AppendAssoc(p, g, t);
    forall k | 0 < k < |gs| ensures IsGap(gs[k]) {
      assert gs[k] == gaps[k - 1];
    }
    forall k | 0 < k < |r| ensures r[k] == [] || !IsSpace(r[k][0]) {
      assert r[k] == tail[k - 1];
    }
  }

  /**
    `split_into_sentences` drops exactly the whitespace runs it splits at, and
    each whole: the text is the pieces with non-empty whitespace runs between
    them, every piece after the first starts after its run, and whitespace
    inside a piece is kept.
   */
  lemma SplitSeparated(text: string)
    ensures exists gaps :: SeparatedBy(text, SplitIntoSentences(text), gaps)
  {
    SplitFromSeparated([], text);
    assert [] + text == text;
    var gaps :| SeparatedBy([] + text, SplitFrom([], text), gaps);
    assert SeparatedBy(text, SplitIntoSentences(text), gaps);
  }

  lemma ShiftOne(piece: string, rest: string)
    requires rest != []
    ensures (piece + [rest[0]]) + rest[1..] == piece + rest
  {
  }

  /** Splitting drops only whitespace. */
  lemma {:induction false} SplitFromKeepsNonSpaces(piece: string, rest: string)
    ensures NonSpaces(JoinSpaces(SplitFrom(piece, rest))) == NonSpaces(piece + rest)
    decreases |rest|
  {
    if rest == [] {
      assert piece + rest == piece;
    } else if piece != [] && IsTerminator(piece[|piece| - 1]) && IsSpace(rest[0]) {
      var tail := SplitFrom([], TrimStart(rest));
      SplitFromKeepsNonSpaces([], TrimStart(rest));
      assert [] + TrimStart(rest) == TrimStart(rest);
      JoinSpacesNonSpaces(piece, tail);
      NonSpacesTrimStart(rest);
      NonSpacesAppend(piece, rest);
    } else {
      SplitFromKeepsNonSpaces(piece + [rest[0]], rest[1..]);
      ShiftOne(piece, rest);
    }
  }

  /** Joining the sentences again gives back every non-whitespace character, in order. */
  lemma SplitKeepsNonSpaces(text: string)
    ensures NonSpaces(JoinSpaces(SplitIntoSentences(text))) == NonSpaces(text)
  {
    SplitFromKeepsNonSpaces([], text);
    assert [] + text == text;
  }

  lemma SingleSpacedSuffix(s: string, k: nat)
    requires SingleSpaced(s) && k <= |s|
    ensures SingleSpaced(s[k..])
  {
    var t := s[k..];
    forall i | 0 <= i < |t| - 1 ensures !(IsSpace(t[i]) && IsSpace(t[i + 1])) {
      assert t[i] == s[k + i] && t[i + 1] == s[k + i + 1];
    }
  }

  /** In single-spaced text a whitespace run is one character long. */
  lemma TrimStartSingleSpace(s: string)
    requires SingleSpaced(s) && s != [] && IsSpace(s[0])
    ensures TrimStart(s) == s[1..]
  {
    if |s| > 1 {
      assert !IsSpace(s[1]);
      assert s[1..][0] == s[1];
    }
  }

  lemma SplitJoinBreakStep(piece: string, rest: string)
    requires SingleSpaced(rest) && rest != [] && IsSpace(rest[0])
    requires JoinSpaces(SplitFrom([], rest[1..])) == rest[1..]
    ensures JoinSpaces([piece] + SplitFrom([], rest[1..])) == piece + rest
  {
    JoinSpacesCons(piece, SplitFrom([], rest[1..]));
    assert rest[0] == ' ';
    ConsTail(rest);
    AppendAssoc(piece, " ", rest[1..]);
  }

  lemma {:induction false} SplitFromJoin(piece: string, rest: string)
    requires SingleSpaced(rest)
    ensures JoinSpaces(SplitFrom(piece, rest)) == piece + rest
    decreases |rest|
  {
    SingleSpacedSuffix(rest, if rest == [] then 0 else 1);
    if rest == [] {
      assert piece + rest == piece;
    } else if piece != [] && IsTerminator(piece[|piece| - 1]) && IsSpace(rest[0]) {
      TrimStartSingleSpace(rest);
      SplitFromJoin([], rest[1..]);
      assert [] + rest[1..] == rest[1..];
      SplitJoinBreakStep(piece, rest);
    } else {
      SplitFromJoin(piece + [rest[0]], rest[1..]);
      ShiftOne(piece, rest);
    }
  }

  /** Round trip: on single-spaced text, joining the sentences with one space restores the text. */
  lemma SplitJoinRoundTrip(text: string)
    requires SingleSpaced(text)
    ensures JoinSpaces(SplitIntoSentences(text)) == text
  {
    SplitFromJoin([], text);
    assert [] + text == text;
  }

  // ---------------------------------------------------------------------------
  // Splitting inverts joining

  /**
    A list `split_into_sentences` hands back unchanged after a `' '.join`: each
    sentence is non-empty, starts with a non-whitespace character and has no
    split point, and all but the last end in a terminator.
   */
  predicate SentenceList(parts: seq<string>) {
    parts != [] &&
    (forall k :: 0 <= k < |parts| ==> parts[k] != [] && !IsSpace(parts[k][0]) && NoSplitPoint(parts[k])) &&
    (forall k :: 0 <= k < |parts| - 1 ==> IsTerminator(parts[k][|parts[k]| - 1]))
  }

  /** Reading a stretch with no split point only extends the current piece. */
  lemma {:induction false} SplitFromSkip(piece: string, x: string, y: string)
    requires NoSplitPoint(piece + x)
    ensures SplitFrom(piece, x + y) == SplitFrom(piece + x, y)
    decreases |x|
  {
    if x != [] {
      var w := piece + x;
      if piece != [] {
        assert w[|piece| - 1] == piece[|piece| - 1] && w[|piece|] == x[0];
        assert !SplitsAt(w, |piece|);
      }
      assert (x + y)[0] == x[0] && (x + y)[1..] == x[1..] + y;
      assert (piece + [x[0]]) + x[1..] == w;
      SplitFromSkip(piece + [x[0]], x[1..], y);
    } else {
      assert piece + x == piece && x + y == y;
    }
  }

  lemma SplitFromSentenceBreak(piece: string, r: string)
    requires piece != [] && IsTerminator(piece[|piece| - 1])
    requires r != [] && !IsSpace(r[0])
    ensures SplitFrom(piece, " " + r) == [piece] + SplitFrom([], r)
  {
    assert (" " + r)[1..] == r;
  }

  /** Splitting `a + " " + r` for a sentence `a`: `a` comes off as the first piece. */
  lemma SplitSentenceThenRest(a: string, r: string)
    requires a != [] && IsTerminator(a[|a| - 1]) && NoSplitPoint(a)
    requires r != [] && !IsSpace(r[0])
    ensures SplitIntoSentences(a + " " + r) == [a] + SplitIntoSentences(r)
  {
    assert [] + a == a;
    SplitFromSkip([], a, " " + r);
    assert a + " " + r == a + (" " + r);
    SplitFromSentenceBreak(a, r);
  }

  lemma SplitLastSentence(a: string)
    requires NoSplitPoint(a)
    ensures SplitIntoSentences(a) == [a]
  {
    assert [] + a == a;
    SplitFromSkip([], a, []);
    assert a + [] == a;
  }

  lemma SentenceListTail(parts: seq<string>)
    requires SentenceList(parts) && |parts| > 1
    ensures SentenceList(parts[1..])
  {
    var rest := parts[1..];
    forall k | 0 <= k < |rest| ensures rest[k] == parts[k + 1] { }
  }

  /** Inverse: splitting a single-space join of a sentence list gives the list back. */
  lemma {:induction false} SplitJoinInverse(parts: seq<string>)
    requires SentenceList(parts)
    ensures SplitIntoSentences(JoinSpaces(parts)) == parts
    decreases |parts|
  {
    if |parts| == 1 {
      SplitLastSentence(parts[0]);
    } else {
      var rest := parts[1..];
      SentenceListTail(parts);
      JoinSpacesCons(parts[0], rest);
      assert parts == [parts[0]] + rest;
      JoinSpacesHead(rest);
      SplitSentenceThenRest(parts[0], JoinSpaces(rest));
      SplitJoinInverse(rest);
    }
  }

  // ---------------------------------------------------------------------------
  // The documented example

  lemma ExampleSentence1() ensures NoSplitPoint("Hello world.") { }
  lemma ExampleSentence2() ensures NoSplitPoint("This is a test!") { }
  lemma ExampleSentence3() ensures NoSplitPoint("Are you sure?") { }

  lemma ExampleSentences()
    ensures SentenceList(["Hello world.", "This is a test!", "Are you sure?"])
  {
    ExampleSentence1();
    ExampleSentence2();
    ExampleSentence3();
  }

  lemma ExampleJoin()
    ensures JoinSpaces(["Hello world.", "This is a test!", "Are you sure?"]) == "Hello world. This is a test! Are you sure?"
  {
    var parts := ["Hello world.", "This is a test!", "Are you sure?"];
    assert parts[1..][1..] == ["Are you sure?"];
    ExampleConcat();
  }

  lemma ExampleConcat()
    ensures "Hello world." + " " + "This is a test!" + " " + "Are you sure?" == "Hello world. This is a test! Are you sure?"
  {
  }

  lemma SplitExample()
    ensures SplitIntoSentences("Hello world. This is a test! Are you sure?") == ["Hello world.", "This is a test!", "Are you sure?"]
  {
    ExampleSentences();
    SplitJoinInverse(["Hello world.", "This is a test!", "Are you sure?"]);
    ExampleJoin();
  }
}
