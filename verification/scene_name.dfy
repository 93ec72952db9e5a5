/** Extraction of the Manim scene class name from generated source code
    (app.py, `extract_class_name`). The function searches for the leftmost
    match of the regular expression

        class\s+(\w+)\s*\(\s*\w*Scene\s*\):

    and returns its first group, or raises `ValueError` when there is none.

    The module gives the pattern twice: as a deterministic scanner
    (`MatchAt`, the way a backtracking matcher ends up reading it: every
    repetition can only lead to a match with its maximal run, because what
    the pattern needs next is a character the repetition cannot consume,
    or, for the `\w*` before `Scene`, because `Scene` must be followed by
    whitespace or `)`) and as a
    declarative predicate (`DeclaresAt`, "the text can be cut into the
    pieces the pattern names"). The two are proved equivalent, and the
    contract of `ExtractClassName` is stated on the declarative side. */
module SceneName {
  import opened Results

  /** Python's `\w`, restricted to ASCII letters, digits and underscore. */
  predicate IsWordChar(c: char) {
    ('a' <= c <= 'z') || ('A' <= c <= 'Z') || ('0' <= c <= '9') || c == '_'
  }

  /** Python's `\s` on `str` patterns: the characters `str.isspace` accepts. */
  predicate IsSpaceChar(c: char) {
    ('\t' <= c <= '\r') || ('\U{1C}' <= c <= '\U{1F}') || c == ' '
    || c == '\U{85}' || c == '\U{A0}' || c == '\U{1680}'
    || ('\U{2000}' <= c <= '\U{200A}') || c == '\U{2028}' || c == '\U{2029}'
    || c == '\U{202F}' || c == '\U{205F}' || c == '\U{3000}'
  }

  /** `s[p..q]` consists of whitespace only. */
  ghost predicate Spaces(s: string, p: int, q: int)
    requires 0 <= p <= q <= |s|
  {
    forall k {:trigger IsSpaceChar(s[k])} :: p <= k < q ==> IsSpaceChar(s[k])
  }

  /** `s[p..q]` consists of word characters only. */
  ghost predicate Word(s: string, p: int, q: int)
    requires 0 <= p <= q <= |s|
  {
    forall k {:trigger IsWordChar(s[k])} :: p <= k < q ==> IsWordChar(s[k])
  }

  /** A possible value of the captured group: a non-empty run of word characters. */
  predicate IsName(name: string) {
    |name| > 0 && forall k {:trigger IsWordChar(name[k])} :: 0 <= k < |name| ==> IsWordChar(name[k])
  }

  const Keyword: string := "class"
  const BaseSuffix: string := "Scene"
  const NoClassNameMessage: string := "Could not extract class name from Manim code."

  /** `class` at `i`, whitespace in [i+5, a), and the name in [a, b). */
  ghost predicate NameCut(s: string, i: int, a: int, b: int) {
    0 <= i && i + 5 < a < b <= |s| && s[i..i + 5] == Keyword && Spaces(s, i + 5, a) && Word(s, a, b)
  }

  /** Whitespace in [p, c) and `(` at `c`. */
  ghost predicate OpenCut(s: string, p: int, c: int) {
    0 <= p <= c < |s| && Spaces(s, p, c) && s[c] == '('
  }

  /** Whitespace in [p, d) and a word ending in `Scene` in [d, e). */
  ghost predicate BaseCut(s: string, p: int, d: int, e: int) {
    0 <= p <= d && d + 5 <= e <= |s| && Spaces(s, p, d) && Word(s, d, e) && s[e - 5..e] == BaseSuffix
  }

  /** Whitespace in [p, f) and `):` at `f`, the end of the pattern. */
  ghost predicate CloseCut(s: string, p: int, f: int) {
    0 <= p <= f && f + 2 <= |s| && Spaces(s, p, f) && s[f] == ')' && s[f + 1] == ':'
  }

  /** The pattern matched at `i`, cut at the points where its pieces meet. */
  ghost predicate Decl(s: string, i: int, a: int, b: int, c: int, d: int, e: int, f: int) {
    NameCut(s, i, a, b) && OpenCut(s, b, c) && BaseCut(s, c + 1, d, e) && CloseCut(s, e, f)
  }

  /** A match of the pattern starts at `i` and captures `name`. */
  ghost predicate DeclaresAt(s: string, i: int, name: string) {
    exists a, b, c, d, e, f :: Decl(s, i, a, b, c, d, e, f) && name == s[a..b]
  }

  /** No position of `s` starts a match. */
  ghost predicate NoDeclaration(s: string) {
    forall i: int, name: string :: !DeclaresAt(s, i, name)
  }

  /** `name` is captured by the match that starts leftmost in `s`. */
  ghost predicate LeftmostDeclaration(s: string, name: string) {
    exists i: int :: DeclaresAt(s, i, name) && forall j: int, other: string :: 0 <= j < i ==> !DeclaresAt(s, j, other)
  }

  /** The end of the maximal whitespace run starting at `p`. */
  function SkipSpaces(s: string, p: nat): (q: nat)
    requires p <= |s|
    ensures p <= q <= |s|
    ensures forall k {:trigger IsSpaceChar(s[k])} :: p <= k < q ==> IsSpaceChar(s[k])
    ensures q < |s| ==> !IsSpaceChar(s[q])
    decreases |s| - p
  {
    if p < |s| && IsSpaceChar(s[p]) then SkipSpaces(s, p + 1) else p
  }

  /** The end of the maximal word-character run starting at `p`. */
  function SkipWord(s: string, p: nat): (q: nat)
    requires p <= |s|
    ensures p <= q <= |s|
    ensures forall k {:trigger IsWordChar(s[k])} :: p <= k < q ==> IsWordChar(s[k])
    ensures q < |s| ==> !IsWordChar(s[q])
    decreases |s| - p
  {
    if p < |s| && IsWordChar(s[p]) then SkipWord(s, p + 1) else p
  }

  /** The scanner for `\s*\):` from `p`. */
  predicate CloseAt(s: string, p: nat)
    requires p <= |s|
  {
    var f := SkipSpaces(s, p);
    f + 2 <= |s| && s[f] == ')' && s[f + 1] == ':'
  }

  /** The scanner for `\s*\w*Scene\s*\):` from `p`. */
  predicate BaseAt(s: string, p: nat)
    requires p <= |s|
  {
    var d := SkipSpaces(s, p);
    var e := SkipWord(s, d);
    e - d >= 5 && s[e - 5..e] == BaseSuffix && CloseAt(s, e)
  }

  /** The scanner for `\s*\(\s*\w*Scene\s*\):` from `p`. */
  predicate OpenAt(s: string, p: nat)
    requires p <= |s|
  {
    var c := SkipSpaces(s, p);
    c < |s| && s[c] == '(' && BaseAt(s, c + 1)
  }

  /** The group the pattern captures when matched at `i`, if it matches there. */
  function MatchAt(s: string, i: nat): Option<string> {
    if !(i + 5 <= |s| && s[i..i + 5] == Keyword) then None
    else
      var a := SkipSpaces(s, i + 5);
      if a == i + 5 then None
      else
        var b := SkipWord(s, a);
        if b == a || !OpenAt(s, b) then None else Some(s[a..b])
  }

  lemma WordIsNotSpace(c: char)
    ensures IsWordChar(c) ==> !IsSpaceChar(c)
  {
  }

  /** A whitespace run ending where whitespace stops is what `SkipSpaces` finds. */
  lemma SkipSpacesStopsAt(s: string, p: nat, q: nat)
    requires p <= q <= |s| && Spaces(s, p, q)
    requires q < |s| ==> !IsSpaceChar(s[q])
    ensures SkipSpaces(s, p) == q
  {
  }

  /** A word run ending where word characters stop is what `SkipWord` finds. */
  lemma SkipWordStopsAt(s: string, p: nat, q: nat)
    requires p <= q <= |s| && Word(s, p, q)
    requires q < |s| ==> !IsWordChar(s[q])
    ensures SkipWord(s, p) == q
  {
  }

  /** The end of the pattern read from `p` with `)` at `f` is what the
      scanner reads, and `p` cannot continue a word: it holds whitespace or `)`. */
  lemma CloseCutScan(s: string, p: nat, f: int)
    requires CloseCut(s, p, f)
    ensures SkipSpaces(s, p) == f && CloseAt(s, p)
    ensures p < |s| && !IsWordChar(s[p])
  {
    SkipSpacesStopsAt(s, p, f);
    if p < f {
      WordIsNotSpace(s[p]);
    }
  }

  /** The base class read from `p` with the cut points `d` and `e` is what the
      scanner reads: the word cannot stop before the maximal run, because
      what follows it is whitespace or `)`. */
  lemma BaseCutScan(s: string, p: nat, d: int, e: int, f: int)
    requires BaseCut(s, p, d, e) && CloseCut(s, e, f)
    ensures SkipSpaces(s, p) == d && SkipWord(s, d) == e && BaseAt(s, p)
  {
    WordIsNotSpace(s[d]);
    SkipSpacesStopsAt(s, p, d);
    CloseCutScan(s, e, f);
    SkipWordStopsAt(s, d, e);
  }

  /** Everything after the class name, read with the given cut points, is
      accepted by the scanner, and `p` cannot continue the name: it holds
      whitespace or `(`. */
  lemma OpenCutScan(s: string, p: nat, c: int, d: int, e: int, f: int)
    requires OpenCut(s, p, c) && BaseCut(s, c + 1, d, e) && CloseCut(s, e, f)
    ensures OpenAt(s, p)
    ensures p < |s| && !IsWordChar(s[p])
  {
    SkipSpacesStopsAt(s, p, c);
    BaseCutScan(s, c + 1, d, e, f);
    if p < c {
      WordIsNotSpace(s[p]);
    }
  }

  /** What the scanner accepts for `\s*\):` from `p` is cut at the end of the whitespace run. */
  lemma CloseAtCut(s: string, p: nat)
    requires p <= |s| && CloseAt(s, p)
    ensures CloseCut(s, p, SkipSpaces(s, p))
  {
  }

  /** What the scanner accepts for `\s*\w*Scene` from `p` is cut at the ends of the two runs. */
  lemma BaseAtCut(s: string, p: nat)
    requires p <= |s| && BaseAt(s, p)
    ensures BaseCut(s, p, SkipSpaces(s, p), SkipWord(s, SkipSpaces(s, p)))
    ensures CloseAt(s, SkipWord(s, SkipSpaces(s, p)))
  {
  }

  /** What the scanner accepts for `\s*\(` from `p` is cut at the end of the whitespace run. */
  lemma OpenAtCut(s: string, p: nat)
    requires p <= |s| && OpenAt(s, p)
    ensures OpenCut(s, p, SkipSpaces(s, p))
    ensures BaseAt(s, SkipSpaces(s, p) + 1)
  {
  }

  /** A name cut off after `class` followed by what the scanner accepts
      for the rest of the pattern is a match. */
  lemma OpenAtDeclares(s: string, i: int, a: int, b: nat)
    requires NameCut(s, i, a, b) && OpenAt(s, b)
    ensures DeclaresAt(s, i, s[a..b])
  {
    OpenAtCut(s, b);
    var c := SkipSpaces(s, b);
    BaseAtCut(s, c + 1);
    var d := SkipSpaces(s, c + 1);
    var e := SkipWord(s, d);
    CloseAtCut(s, e);
    var f := SkipSpaces(s, e);
    assert Decl(s, i, a, b, c, d, e, f);
  }

  /** Every group the scanner returns is a match in the declarative sense. */
  lemma MatchAtSound(s: string, i: nat)
    requires MatchAt(s, i).Some?
    ensures DeclaresAt(s, i, MatchAt(s, i).value)
  {
    var a := SkipSpaces(s, i + 5);
    var b := SkipWord(s, a);
    assert NameCut(s, i, a, b) && OpenAt(s, b) && MatchAt(s, i).value == s[a..b];
    OpenAtDeclares(s, i, a, b);
  }

  /** Every group the scanner returns is a possible class name. */
  lemma MatchAtIsName(s: string, i: nat)
    requires MatchAt(s, i).Some?
    ensures IsName(MatchAt(s, i).value)
  {
    var a := SkipSpaces(s, i + 5);
    var b := SkipWord(s, a);
    assert forall k :: 0 <= k < b - a ==> s[a..b][k] == s[a + k];
  }

  /** Every declarative match is found by the scanner, with the same group:
      each repetition in the pattern can only lead to a match with its
      maximal run, since `\s*`, `\s+` and `(\w+)` are followed by something
      they cannot consume, and the base word is followed by whitespace or
      `)` after its `Scene` (see `BaseCutScan`). */
  lemma MatchAtComplete(s: string, i: int, name: string)
    requires DeclaresAt(s, i, name)
    ensures 0 <= i <= |s| && MatchAt(s, i) == Some(name)
  {
    var a, b, c, d, e, f :| Decl(s, i, a, b, c, d, e, f) && name == s[a..b];
    WordIsNotSpace(s[a]);
    SkipSpacesStopsAt(s, i + 5, a);
    OpenCutScan(s, b, c, d, e, f);
    SkipWordStopsAt(s, a, b);
  }

  /** The pattern captures at most one name at any given position. */
  lemma DeclarationIsDeterministic(s: string, i: int, n1: string, n2: string)
    requires DeclaresAt(s, i, n1) && DeclaresAt(s, i, n2)
    ensures n1 == n2
  {
    MatchAtComplete(s, i, n1);
    MatchAtComplete(s, i, n2);
  }

  /** At most one name is captured by the leftmost match. */
  lemma LeftmostIsUnique(s: string, n1: string, n2: string)
    requires LeftmostDeclaration(s, n1) && LeftmostDeclaration(s, n2)
    ensures n1 == n2
  {
    var i1 :| DeclaresAt(s, i1, n1) && forall j: int, other: string :: 0 <= j < i1 ==> !DeclaresAt(s, j, other);
    var i2 :| DeclaresAt(s, i2, n2) && forall j: int, other: string :: 0 <= j < i2 ==> !DeclaresAt(s, j, other);
    MatchAtComplete(s, i1, n1);
    MatchAtComplete(s, i2, n2);
    assert i1 == i2;
    DeclarationIsDeterministic(s, i1, n1, n2);
  }

  /** The scan of `re.search` from position `i`: the first position, up to
      and including `|s|`, where the scanner matches, with its group. */
  function Search(s: string, i: nat): (r: Option<(nat, string)>)
    requires i <= |s| + 1
    ensures r.Some? ==> i <= r.value.0 <= |s| && MatchAt(s, r.value.0) == Some(r.value.1)
    ensures r.Some? ==> forall j :: i <= j < r.value.0 ==> MatchAt(s, j).None?
    ensures r.None? ==> forall j :: i <= j <= |s| ==> MatchAt(s, j).None?
    decreases |s| + 1 - i
  {
    if i == |s| + 1 then None
    else match MatchAt(s, i)
      case Some(name) => Some((i, name))
      case None => Search(s, i + 1)
  }

  /** `re.search` with the pattern: the leftmost position where the scanner
      matches, with its group. */
  function Find(s: string): (r: Option<(nat, string)>)
    ensures r.Some? ==> r.value.0 <= |s| && MatchAt(s, r.value.0) == Some(r.value.1)
    ensures r.Some? ==> forall j :: 0 <= j < r.value.0 ==> MatchAt(s, j).None?
    ensures r.None? ==> forall j :: 0 <= j <= |s| ==> MatchAt(s, j).None?
  {
    Search(s, 0)
  }

  lemma FoundIsLeftmost(s: string, i: nat, name: string)
    requires i <= |s| && MatchAt(s, i) == Some(name)
    requires forall j :: 0 <= j < i ==> MatchAt(s, j).None?
    ensures LeftmostDeclaration(s, name)
  {
    MatchAtSound(s, i);
    forall j: int, other: string | 0 <= j < i
      ensures !DeclaresAt(s, j, other)
    {
      if DeclaresAt(s, j, other) {
        MatchAtComplete(s, j, other);
      }
    }
  }

  lemma NotFoundIsNoDeclaration(s: string)
    requires forall j :: 0 <= j <= |s| ==> MatchAt(s, j).None?
    ensures NoDeclaration(s)
  {
    forall i: int, name: string
      ensures !DeclaresAt(s, i, name)
    {
      if DeclaresAt(s, i, name) {
        MatchAtComplete(s, i, name);
      }
    }
  }

  /** `extract_class_name`: the name captured by the leftmost match, or the
      `ValueError` raised when the code declares no `...Scene` subclass in
      the recognised form. */
  function ExtractClassName(code: string): (r: Result<string, string>)
    ensures r.Success? ==> IsName(r.value) && LeftmostDeclaration(code, r.value)
    ensures r.Failure? <==> NoDeclaration(code)
    ensures r.Failure? ==> r.error == NoClassNameMessage
  {
    var found := Find(code);
    if found.Some? then
      FoundIsLeftmost(code, found.value.0, found.value.1);
      MatchAtIsName(code, found.value.0);
      Success(found.value.1)
    else
      NotFoundIsNoDeclaration(code);
      Failure(NoClassNameMessage)
  }

  /** `name` occurs at `a`, right after the keyword `class` at `i` and at
      least one whitespace character. */
  ghost predicate FollowsKeyword(s: string, i: int, a: int, name: string) {
    0 <= i && i + 5 < a && a + |name| <= |s|
    && s[i..i + 5] == Keyword && Spaces(s, i + 5, a) && s[a..a + |name|] == name
  }

  /** The extracted name occurs in the code right after the keyword `class`
      and at least one whitespace character. */
  lemma ExtractedNameFollowsKeyword(code: string)
    requires ExtractClassName(code).Success?
    ensures exists i, a :: FollowsKeyword(code, i, a, ExtractClassName(code).value)
  {
    var name := ExtractClassName(code).value;
    assert LeftmostDeclaration(code, name);
    var i :| DeclaresAt(code, i, name);
    DeclaredNameFollowsKeyword(code, i, name);
  }

  lemma DeclaredNameFollowsKeyword(s: string, i: int, name: string)
    requires DeclaresAt(s, i, name)
    ensures exists a :: FollowsKeyword(s, i, a, name)
  {
    var a, b, c, d, e, f :| Decl(s, i, a, b, c, d, e, f) && name == s[a..b];
    assert FollowsKeyword(s, i, a, name);
  }

  /** A match at the very start of the code is the one extracted. */
  lemma ExtractsDeclarationAtStart(code: string, name: string)
    requires DeclaresAt(code, 0, name)
    ensures ExtractClassName(code) == Success(name)
  {
    var r := ExtractClassName(code);
    assert LeftmostDeclaration(code, name);
    LeftmostIsUnique(code, name, r.value);
  }

  /** Every match contains, after its keyword, a `Scene` followed by
      optional whitespace, `)` and `:`; so code with a match contains an `S`
      and a `)` immediately followed by `:`. */
  lemma DeclarationShape(s: string, i: int, name: string)
    ensures DeclaresAt(s, i, name) ==>
      exists e :: i + 5 <= e <= |s| && e >= 5 && s[e - 5..e] == BaseSuffix && CloseAt(s, e)
    ensures DeclaresAt(s, i, name) ==> exists k :: 0 <= k < |s| && s[k] == 'S'
    ensures DeclaresAt(s, i, name) ==> exists k :: 0 <= k < |s| - 1 && s[k] == ')' && s[k + 1] == ':'
  {
    if DeclaresAt(s, i, name) {
      var a, b, c, d, e, f :| Decl(s, i, a, b, c, d, e, f) && name == s[a..b];
      CloseCutScan(s, e, f);
      assert s[e - 5] == s[e - 5..e][0] == 'S';
    }
  }

  /** Code in which no `Scene` is followed by optional whitespace, `)` and
      `:` (so no base class of a declaration can end in `Scene`) yields the
      error. */
  lemma RejectsWithoutSceneBase(code: string)
    requires forall e :: 5 <= e <= |code| && code[e - 5..e] == BaseSuffix ==> !CloseAt(code, e)
    ensures ExtractClassName(code) == Failure(NoClassNameMessage)
  {
    forall i: int, name: string
      ensures !DeclaresAt(code, i, name)
    {
      DeclarationShape(code, i, name);
    }
  }

  /** Code in which no `)` is immediately followed by `:` yields the error. */
  lemma RejectsWithoutAdjacentParenColon(code: string)
    requires forall k :: 0 <= k < |code| - 1 && code[k] == ')' ==> code[k + 1] != ':'
    ensures ExtractClassName(code) == Failure(NoClassNameMessage)
  {
    forall i: int, name: string
      ensures !DeclaresAt(code, i, name)
    {
      DeclarationShape(code, i, name);
    }
  }

  /** The first position where the scanner matches gives the extracted name. */
  lemma ExtractsFirstScanned(code: string, i: nat)
    requires i <= |code| && MatchAt(code, i).Some?
    requires forall j :: 0 <= j < i ==> MatchAt(code, j).None?
    ensures ExtractClassName(code) == Success(MatchAt(code, i).value)
  {
    var name := MatchAt(code, i).value;
    FoundIsLeftmost(code, i, name);
    MatchAtSound(code, i);
    LeftmostIsUnique(code, name, ExtractClassName(code).value);
  }

  /** A base class the pattern accepts: a word ending in `Scene`. */
  predicate IsSceneBase(base: string) {
    IsName(base) && |base| >= 5 && base[|base| - 5..] == BaseSuffix
  }

  /** The declaration a scene is expected to open with: `class`, one space,
      the scene's name and its base class in parentheses, and a colon. */
  function DeclarationLine(name: string, base: string): string {
    Keyword + " " + name + "(" + base + "):"
  }

  /** Where the pieces of a declaration line stand. */
  lemma DeclarationLineLayout(name: string, base: string)
    ensures var line := DeclarationLine(name, base);
      && |line| == |name| + |base| + 9
      && line[..5] == Keyword && line[5] == ' '
      && line[6..6 + |name|] == name
      && line[6 + |name|] == '('
      && line[7 + |name|..7 + |name| + |base|] == base
      && line[7 + |name| + |base|] == ')' && line[8 + |name| + |base|] == ':'
  {
  }

  /** A slice of a slice is a slice of the original. */
  lemma SliceOfSlice(s: string, i: nat, j: nat, m: nat, n: nat)
    requires i <= j <= |s| && m <= n <= j - i
    ensures s[i..j][m..n] == s[i + m..i + n]
  {
    assert forall k :: 0 <= k < n - m ==> s[i..j][m..n][k] == s[i + m..i + n][k];
  }

  /** A run whose text is a possible name consists of word characters. */
  lemma WordOfName(s: string, p: nat, q: nat)
    requires p <= q <= |s| && IsName(s[p..q])
    ensures Word(s, p, q)
  {
    forall k | p <= k < q
      ensures IsWordChar(s[k])
    {
      assert s[k] == s[p..q][k - p];
    }
  }

  /** Where the pieces of a declaration line stand once it is embedded in code at `i`. */
  lemma EmbeddedDeclarationLine(prefix: string, name: string, base: string, rest: string)
    ensures var s, i := prefix + DeclarationLine(name, base) + rest, |prefix|;
      var b, e := i + 6 + |name|, i + 7 + |name| + |base|;
      && e + 2 <= |s|
      && s[i..i + 5] == Keyword && s[i + 5] == ' '
      && s[i + 6..b] == name && s[b] == '('
      && s[b + 1..e] == base && s[e] == ')' && s[e + 1] == ':'
  {
    var line := DeclarationLine(name, base);
    var s, i := prefix + line + rest, |prefix|;
    var b, e := i + 6 + |name|, i + 7 + |name| + |base|;
    DeclarationLineLayout(name, base);
    assert s[i..i + |line|] == line;
    assert s[i..i + 5] == Keyword by { SliceOfSlice(s, i, i + |line|, 0, 5); }
    assert s[i + 6..b] == name by { SliceOfSlice(s, i, i + |line|, 6, 6 + |name|); }
    assert s[b + 1..e] == base by { SliceOfSlice(s, i, i + |line|, 7 + |name|, 7 + |name| + |base|); }
    assert s[i + 5] == line[5] && s[b] == line[6 + |name|];
    assert s[e] == line[7 + |name| + |base|] && s[e + 1] == line[8 + |name| + |base|];
  }

  /** A declaration line, wherever it stands in the code, is a match at its
      start that captures the scene's name. */
  lemma DeclarationLineDeclares(prefix: string, name: string, base: string, rest: string)
    requires IsName(name) && IsSceneBase(base)
    ensures DeclaresAt(prefix + DeclarationLine(name, base) + rest, |prefix|, name)
  {
    var s, i := prefix + DeclarationLine(name, base) + rest, |prefix|;
    var a, b := i + 6, i + 6 + |name|;
    var d, e := b + 1, b + 1 + |base|;
    EmbeddedDeclarationLine(prefix, name, base, rest);
    assert NameCut(s, i, a, b) by {
      WordOfName(s, a, b);
    }
    assert BaseCut(s, d, d, e) by {
      WordOfName(s, d, e);
      SliceOfSlice(s, d, e, |base| - 5, |base|);
    }
    assert Decl(s, i, a, b, b, d, e, e);
  }

  /** Code that opens with a declaration line yields the scene's name: the
      form the code generator is asked for is read back exactly. */
  lemma ExtractsLeadingDeclaration(name: string, base: string, rest: string)
    requires IsName(name) && IsSceneBase(base)
    ensures ExtractClassName(DeclarationLine(name, base) + rest) == Success(name)
  {
    DeclarationLineDeclares([], name, base, rest);
    assert [] + DeclarationLine(name, base) + rest == DeclarationLine(name, base) + rest;
    ExtractsDeclarationAtStart(DeclarationLine(name, base) + rest, name);
  }

  /** Line 5 of temp.py, the example scene of the repository. */
  const ExampleName: string := "ExampleCalculation"
  const ExampleLine: string := DeclarationLine(ExampleName, BaseSuffix)

  /** The declaration of the example scene in temp.py yields its class name. */
  lemma ExampleSceneDeclaration()
    ensures ExtractClassName(ExampleLine) == Success(ExampleName)
  {
    assert IsName(ExampleName);
    assert IsSceneBase(BaseSuffix);
    ExtractsLeadingDeclaration(ExampleName, BaseSuffix, []);
    assert ExampleLine + [] == ExampleLine;
  }

  /** A line in which `class` is the tail of a longer word. */
  const SubclassLine: string := "sub" + DeclarationLine("Intro", "ThreeDScene")

  lemma SubclassLinePrefix()
    ensures forall j :: 0 <= j < 3 ==> MatchAt(SubclassLine, j).None?
  {
    var s := SubclassLine;
    assert s[0] == 's' && s[1] == 'u' && s[2] == 'b';
  }

  lemma SubclassLineScan()
    ensures MatchAt(SubclassLine, 3) == Some("Intro")
  {
    assert IsName("Intro");
    assert IsSceneBase("ThreeDScene");
    DeclarationLineDeclares("sub", "Intro", "ThreeDScene", []);
    assert "sub" + DeclarationLine("Intro", "ThreeDScene") + [] == SubclassLine;
    MatchAtComplete(SubclassLine, 3, "Intro");
  }

  /** There is no word boundary before `class`: a `subclass` line matches too. */
  lemma ExampleNoWordBoundary()
    ensures ExtractClassName(SubclassLine) == Success("Intro")
  {
    SubclassLinePrefix();
    SubclassLineScan();
    ExtractsFirstScanned(SubclassLine, 3);
  }

  /** A base class whose name does not end in `Scene` is not recognised. */
  lemma ExampleWrongBase()
    ensures ExtractClassName("class Intro(Animation):") == Failure(NoClassNameMessage)
  {
    var code := "class Intro(Animation):";
    assert forall k :: 0 <= k < |code| ==> code[k] != 'S';
    forall e | 5 <= e <= |code|
      ensures !(code[e - 5..e] == BaseSuffix && CloseAt(code, e))
    {
      assert code[e - 5..e][0] == code[e - 5];
    }
    RejectsWithoutSceneBase(code);
  }

  /** `)` and `:` must be adjacent. */
  lemma ExampleSpaceBeforeColon()
    ensures ExtractClassName("class Intro(Scene) :") == Failure(NoClassNameMessage)
  {
    RejectsWithoutAdjacentParenColon("class Intro(Scene) :");
  }
}
