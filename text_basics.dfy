/**
  Character classes and small string helpers shared by the text utilities.

  Whitespace is the fixed set of code points for which Python's `str.isspace()`
  holds; the same set is what `\s` matches in a `str` pattern of the `re` module.
 */
module TextBasics {

  /** Python's `str.isspace()` / regex `\s` on a single code point. */
  predicate IsSpace(c: char) {
    || c == ' '
    || ('\t' <= c <= '\r')                  // \t \n \v \f \r
    || ('\U{1C}' <= c <= '\U{1F}')          // file, group, record and unit separators
    || c == '\U{85}' || c == '\U{A0}' || c == '\U{1680}'
    || ('\U{2000}' <= c <= '\U{200A}')
    || c == '\U{2028}' || c == '\U{2029}' || c == '\U{202F}' || c == '\U{205F}' || c == '\U{3000}'
  }

  /** The class `[.!?]`. */
  predicate IsTerminator(c: char) {
    c == '.' || c == '!' || c == '?'
  }

  /** The class `[A-Z]` (ASCII only). */
  predicate IsUpper(c: char) {
    'A' <= c <= 'Z'
  }

  /** The class `[a-z]` (ASCII only). */
  predicate IsLower(c: char) {
    'a' <= c <= 'z'
  }

  /** No whitespace at either end. */
  predicate Trimmed(s: string) {
    s == [] || (!IsSpace(s[0]) && !IsSpace(s[|s| - 1]))
  }

  /** Never two whitespace characters in a row. */
  predicate NoAdjacentSpaces(s: string) {
    forall i :: 0 <= i < |s| - 1 ==> !(IsSpace(s[i]) && IsSpace(s[i + 1]))
  }

  /** Every whitespace character is a plain space and none is next to another. */
  predicate SingleSpaced(s: string) {
    NoAdjacentSpaces(s) && forall i :: 0 <= i < |s| && IsSpace(s[i]) ==> s[i] == ' '
  }

  /** The string without its leading whitespace (the left half of `str.strip()`). */
  function TrimStart(s: string): (r: string)
    ensures |r| <= |s| && r == s[|s| - |r|..]
    ensures r == [] || !IsSpace(r[0])
    ensures forall i :: 0 <= i < |s| - |r| ==> IsSpace(s[i])
    ensures s != [] && IsSpace(s[0]) ==> |r| < |s|
  {
    if s != [] && IsSpace(s[0]) then TrimStart(s[1..]) else s
  }

  /** The string without its trailing whitespace (the right half of `str.strip()`). */
  function TrimEnd(s: string): (r: string)
    ensures |r| <= |s| && r == s[..|r|]
    ensures r == [] || !IsSpace(r[|r| - 1])
    ensures forall i :: |r| <= i < |s| ==> IsSpace(s[i])
  {
    if s != [] && IsSpace(s[|s| - 1]) then TrimEnd(s[..|s| - 1]) else s
  }

  /** `str.strip()` with no argument. */
  function Strip(s: string): (r: string)
    ensures Trimmed(r)
    ensures Trimmed(s) ==> r == s
  {
    TrimEnd(TrimStart(s))
  }

  /** The non-whitespace characters of `s`, in order. */
  function NonSpaces(s: string): (r: string) {
    if s == [] then [] else (if IsSpace(s[0]) then [] else [s[0]]) + NonSpaces(s[1..])
  }

  lemma {:induction false} NonSpacesAppend(a: string, b: string)
    ensures NonSpaces(a + b) == NonSpaces(a) + NonSpaces(b)
  {
    if a == [] {
      assert a + b == b;
    } else {
      assert (a + b)[1..] == a[1..] + b;
      NonSpacesAppend(a[1..], b);
    }
  }

  lemma {:induction false} NonSpacesTrimStart(s: string)
    ensures NonSpaces(TrimStart(s)) == NonSpaces(s)
  {
    if s != [] && IsSpace(s[0]) {
      NonSpacesTrimStart(s[1..]);
    }
  }

  lemma {:induction false} NonSpacesTrimEnd(s: string)
    ensures NonSpaces(TrimEnd(s)) == NonSpaces(s)
    decreases |s|
  {
    if s != [] && IsSpace(s[|s| - 1]) {
      var init := s[..|s| - 1];
      NonSpacesTrimEnd(init);
      assert s == init + [s[|s| - 1]];
      NonSpacesAppend(init, [s[|s| - 1]]);
    }
  }

  /** Python's `' '.join(parts)`. */
  function JoinSpaces(parts: seq<string>): (r: string)
    ensures parts != [] ==> |r| == SumLengths(parts) + |parts| - 1
  {
    if parts == [] then [] else if |parts| == 1 then parts[0] else parts[0] + " " + JoinSpaces(parts[1..])
  }

  /** A join of two or more parts is the first part, a space, and the join of the rest. */
  lemma JoinSpacesCons(a: string, parts: seq<string>)
    requires parts != []
    ensures JoinSpaces([a] + parts) == a + " " + JoinSpaces(parts)
  {
    assert ([a] + parts)[1..] == parts;
  }

  /** A join starts with the first part. */
  lemma JoinSpacesHead(parts: seq<string>)
    requires parts != [] && parts[0] != []
    ensures JoinSpaces(parts) != [] && JoinSpaces(parts)[0] == parts[0][0]
  {
  }

  /** The summed lengths of `parts`. */
  function SumLengths(parts: seq<string>): (n: nat) {
    if parts == [] then 0 else |parts[0]| + SumLengths(parts[1..])
  }

  /** Joining loses nothing but the separators. */
  lemma {:induction false} JoinSpacesNonSpaces(a: string, parts: seq<string>)
    requires parts != []
    ensures NonSpaces(JoinSpaces([a] + parts)) == NonSpaces(a) + NonSpaces(JoinSpaces(parts))
  {
    assert ([a] + parts)[1..] == parts;
    NonSpacesAppend(a + " ", JoinSpaces(parts));
    NonSpacesAppend(a, " ");
  }

  /** A suffix is its first character followed by the next suffix. */
  lemma SuffixCons(s: string, i: int)
    requires 0 <= i < |s|
    ensures s[i..] == [s[i]] + s[i + 1..]
  {
  }

  lemma SuffixCons2(s: string, i: int)
    requires 0 <= i < |s| - 1
    ensures s[i..] == [s[i], s[i + 1]] + s[i + 2..]
  {
  }

  lemma SuffixWhole(s: string)
    ensures s[0..] == s
  {
  }

  lemma ConsTail(s: string)
    requires s != []
    ensures s == [s[0]] + s[1..]
  {
  }

  lemma AppendAssoc(a: string, b: string, c: string)
    ensures a + (b + c) == (a + b) + c
  {
  }

  /** Trimming the front keeps the last character. */
  lemma TrimStartLast(s: string)
    requires TrimStart(s) != []
    ensures s != [] && TrimStart(s)[|TrimStart(s)| - 1] == s[|s| - 1]
  {
  }

  /** A single-spaced string stays single-spaced behind a character that is not a second whitespace. */
  lemma SingleSpacedCons(c: char, t: string)
    requires SingleSpaced(t)
    requires IsSpace(c) ==> c == ' ' && (t == [] || !IsSpace(t[0]))
    ensures SingleSpaced([c] + t)
  {
    var s := [c] + t;
    forall i | 0 < i < |s| ensures s[i] == t[i - 1] { }
  }

  // ---------------------------------------------------------------------------
  // Python's `str.split()` with no argument.

  /** A non-empty run of non-whitespace characters. */
  predicate IsWord(w: string) {
    w != [] && forall i :: 0 <= i < |w| ==> !IsSpace(w[i])
  }

  /** The longest prefix of `s` without whitespace. */
  function LeadingWord(s: string): (w: string)
    ensures |w| <= |s| && w == s[..|w|]
    ensures forall i :: 0 <= i < |w| ==> !IsSpace(w[i])
    ensures |w| < |s| ==> IsSpace(s[|w|])
  {
    if s == [] || IsSpace(s[0]) then [] else [s[0]] + LeadingWord(s[1..])
  }

  /** `s.split()`: the maximal runs of non-whitespace characters, in order. */
  function Words(s: string): (ws: seq<string>)
    ensures forall k :: 0 <= k < |ws| ==> IsWord(ws[k])
    decreases |s|
  {
    var t := TrimStart(s);
    if t == [] then []
    else
      var w := LeadingWord(t);
      LeadingWordIsWord(t);
      var rest := Words(t[|w|..]);
      WordsCons(w, rest);
      [w] + rest
  }

  lemma LeadingWordIsWord(t: string)
    requires t != [] && !IsSpace(t[0])
    ensures IsWord(LeadingWord(t))
  {
  }

  lemma WordsCons(w: string, ws: seq<string>)
    requires IsWord(w)
    requires forall k :: 0 <= k < |ws| ==> IsWord(ws[k])
    ensures forall k :: 0 <= k < |[w] + ws| ==> IsWord(([w] + ws)[k])
  {
  }
}
