/** The OMDb service layer: the reply records, the three thin wrappers
    (searchMovies, getMovieById, fetchMoviesByKeyword), and the pure string
    work of getMovieByTitle: the three title variants built from its two
    regular expressions and one split, and the ranking of search hits. */
module Omdb {
  import opened Util
  import opened Strings

  /** One element of a search reply's `Search` list; "" stands for a missing `imdbID`. */
  datatype Hit = Hit(title: string, imdbId: string)

  /** The body of a search reply (`?s=`): `Response` and the optional `Search` list. */
  datatype SearchReply = SearchReply(response: string, search: Option<seq<Hit>>)

  /** The body of a detail reply (`?i=`), that is, the catalog record. The display
      fields (Year, Poster, Plot, Genre, ...) have no behaviour here and are not kept. */
  datatype Movie = Movie(imdbId: string, title: string, response: string)

  /** searchMovies, and fetchMoviesByKeyword, which has the same body: the hits of a
      reply. Empty exactly in the cases getMovieByTitle treats as "no hits". */
  function SearchResults(reply: SearchReply): (hits: seq<Hit>)
    ensures hits == [] <==> reply.response == "False" || reply.search.None? || reply.search.value == []
    ensures hits != [] ==> reply.search == Some(hits)
  {
    if reply.response == "False" then [] else reply.search.GetOr([])
  }

  /** getMovieById: the record, or null when OMDb reports Response "False". */
  function MovieDetails(reply: Movie): (r: Option<Movie>)
    ensures r.Some? <==> reply.response != "False"
    ensures r.Some? ==> r.value == reply
  {
    if reply.response == "False" then None else Some(reply)
  }

  // ---------------------------------------------------------------------
  // Title variants
  // ---------------------------------------------------------------------

  /** The leftmost position of s at which `at` recognises a match: how a regular
      expression is searched for. */
  function Leftmost(s: string, at: string -> Option<nat>): (i: Option<nat>)
    ensures i.Some? ==> i.value <= |s| && at(s[i.value..]).Some?
    ensures i.Some? ==> forall j | 0 <= j < i.value :: at(s[j..]).None?
    ensures i.None? ==> forall j | 0 <= j <= |s| :: at(s[j..]).None?
    decreases |s|
  {
    if at(s).Some? then Some(0)
    else if s == [] then None
    else
      assert forall j | 1 <= j <= |s| :: s[j..] == s[1..][j - 1..];
      match Leftmost(s[1..], at)
      case None => None
      case Some(k) => Some(k + 1)
  }

  /** The alternatives of `(The|Part|Chapter)`, in lower case. */
  const Keywords: seq<string> := ["the", "part", "chapter"]

  /** kw is one of the keywords in some mix of ASCII cases. */
  predicate IsKeyword(kw: string) {
    Lower(kw) in Keywords
  }

  /** The lower-case word occurs at position j of s, ignoring ASCII case. */
  predicate MatchesAt(s: string, j: nat, word: string) {
    j + |word| <= |s| && forall d | 0 <= d < |word| :: LowerChar(s[j + d]) == word[d]
  }

  /** The alternation `(The|Part|Chapter)` under flag i at position j of s: the
      alternatives are tried in order from the u-th, and the first that matches is
      taken. The result is its index in Keywords. */
  function KeywordFrom(s: string, j: nat, u: nat): (v: Option<nat>)
    requires u <= |Keywords|
    ensures v.Some? ==> u <= v.value < |Keywords| && MatchesAt(s, j, Keywords[v.value])
    ensures v.Some? ==> forall x | u <= x < v.value :: !MatchesAt(s, j, Keywords[x])
    ensures v.None? ==> forall x | u <= x < |Keywords| :: !MatchesAt(s, j, Keywords[x])
    decreases |Keywords| - u
  {
    if u == |Keywords| then None
    else if MatchesAt(s, j, Keywords[u]) then Some(u)
    else KeywordFrom(s, j, u + 1)
  }

  /** Where a match of `(The|Part|Chapter)` at position j of s ends. */
  function KeywordEnd(s: string, j: nat): (k: Option<nat>)
    ensures k.Some? ==> j < k.value <= |s|
    ensures k.Some? ==> IsKeyword(s[j..k.value])
  {
    match KeywordFrom(s, j, 0)
    case None => None
    case Some(v) =>
      var k := j + |Keywords[v]|;
      assert Lower(s[j..k]) == Keywords[v];
      Some(k)
  }

  /** Where a match of `\s+\d+` at position m of s ends. The digit run is taken
      whole, as the greedy `\d+` does. */
  function NumberEnd(s: string, m: nat): (e: Option<nat>)
    requires m <= |s|
    ensures e.Some? ==> m < e.value <= |s| && IsDigit(s[e.value - 1])
    ensures e.Some? ==> e.value == |s| || !IsDigit(s[e.value])
    ensures e.Some? ==> exists d | m < d < e.value :: Run(s, IsSpace, m, d) && Run(s, IsDigit, d, e.value)
  {
    var w := RunFrom(s, IsSpace, m);
    var d := RunFrom(s, IsDigit, m + w);
    if w == 0 || d == 0 then None
    else
      assert Run(s, IsSpace, m, m + w) && Run(s, IsDigit, m + w, m + w + d);
      Some(m + w + d)
  }

  /** Length of a match of `:\s*(The|Part|Chapter)\s+\d+` (flag i) at the start of s.
      The whitespace before the keyword is taken whole, since a keyword never
      starts with whitespace. */
  function QualifierLength(s: string): (n: Option<nat>)
    ensures n.Some? ==> 0 < n.value <= |s| && s[0] == ':' && IsDigit(s[n.value - 1])
    ensures n.Some? ==> n.value == |s| || !IsDigit(s[n.value])
    ensures n.Some? ==> exists j, k, m | 1 <= j <= k < m < n.value ::
      Run(s, IsSpace, 1, j) && IsKeyword(s[j..k]) && Run(s, IsSpace, k, m) && Run(s, IsDigit, m, n.value)
  {
    if s == [] || s[0] != ':' then None
    else
      var j := 1 + RunFrom(s, IsSpace, 1);
      assert Run(s, IsSpace, 1, j);
      match KeywordEnd(s, j)
      case None => None
      case Some(k) => NumberEnd(s, k)
  }

  /** `s.replace(re, '')` for a pattern without the g flag, whose match at the start
      of a text `at` gives: without a match anywhere the text is kept, otherwise
      exactly the leftmost match is cut out. */
  function CutLeftmost(s: string, at: string -> Option<nat>): (r: string)
    requires forall x :: at(x).Some? ==> at(x).value <= |x|
    ensures |r| <= |s|
  {
    match Leftmost(s, at)
    case None => s
    case Some(i) => s[..i] + s[i + at(s[i..]).value..]
  }

  /** `s.replace(/:\s*(The|Part|Chapter)\s+\d+/i, '')`: the leftmost qualifier is cut out. */
  function StripQualifier(s: string): (r: string)
    ensures |r| <= |s|
  {
    CutLeftmost(s, QualifierLength)
  }

  /** Without a qualifier anywhere the title is kept. */
  lemma StripQualifierNone(s: string)
    requires forall j | 0 <= j <= |s| :: QualifierLength(s[j..]).None?
    ensures StripQualifier(s) == s
  {
  }

  /** With a qualifier at i and none before it, exactly that qualifier is cut out. */
  lemma StripQualifierCuts(s: string, i: nat)
    requires i <= |s| && QualifierLength(s[i..]).Some?
    requires forall j | 0 <= j < i :: QualifierLength(s[j..]).None?
    ensures StripQualifier(s) == s[..i] + s[i + QualifierLength(s[i..]).value..]
  {
    LeftmostIs(s, QualifierLength, i);
  }

  /** The characters `.*?` may run over inside a group: anything but `)` and line ends. */
  predicate InGroup(c: char) {
    c != ')' && !IsLineTerminator(c)
  }

  /** End of a match of `\s*\(.*?\)` that starts at position i of s: leading
      whitespace, `(`, then everything up to the first `)`, provided no line
      terminator comes first. */
  function GroupEnd(s: string, i: nat): (e: Option<nat>)
    requires i <= |s|
    ensures e.Some? ==> i + 2 <= e.value <= |s| && s[e.value - 1] == ')'
    ensures e.Some? ==> var o := i + RunFrom(s, IsSpace, i);
      o + 2 <= e.value && s[o] == '(' && forall k | o < k < e.value - 1 :: InGroup(s[k])
  {
    var o := i + RunFrom(s, IsSpace, i);
    if o < |s| && s[o] == '(' then
      var c := o + 1 + RunFrom(s, InGroup, o + 1);
      if c < |s| && s[c] == ')' then Some(c + 1) else None
    else None
  }

  /** `s.replace(/\s*\(.*?\)/g, '')`: scanning left to right, every group is cut out. */
  function StripGroups(s: string): (r: string)
    ensures |r| <= |s|
  {
    StripFrom(s, 0)
  }

  /** What the global replace leaves of s from position i on. */
  function StripFrom(s: string, i: nat): (r: string)
    requires i <= |s|
    ensures |r| <= |s| - i
    decreases |s| - i
  {
    if i == |s| then []
    else
      match GroupEnd(s, i)
      case Some(e) => StripFrom(s, e)
      case None => [s[i]] + StripFrom(s, i + 1)
  }

  /** No whitespace at either end: what `trim()` returns. */
  predicate Trimmed(v: string) {
    v == [] || (!IsSpace(v[0]) && !IsSpace(v[|v| - 1]))
  }

  /** The three candidates of omdbApi.js, in their fixed order, each trimmed; the
      third, the part before the first colon, has no colon. */
  function Candidates(clean: string): (c: seq<string>)
    ensures |c| == 3
    ensures |c[0]| <= |clean| && |c[1]| <= |clean| && |c[2]| <= |clean|
    ensures Trimmed(c[0]) && Trimmed(c[1]) && Trimmed(c[2])
    ensures ':' !in c[2]
  {
    [Trim(StripQualifier(clean)), Trim(StripGroups(clean)), Trim(Before(clean, ':'))]
  }

  predicate IsVariant(clean: string, v: string) {
    v != [] && v != clean
  }

  /** The filter test of `titleVariations`, as a function value. */
  function VariantOf(clean: string): string -> bool {
    v => IsVariant(clean, v)
  }

  function KeptIf(clean: string, v: string): seq<string> {
    if IsVariant(clean, v) then [v] else []
  }

  /** `titleVariations`: in their fixed order (qualifier, parentheses, colon), the
      candidates that are non-empty and differ from the cleaned title. Equal
      candidates are not merged. */
  function Variations(clean: string): (vs: seq<string>)
    ensures |vs| <= 3
    ensures vs == Filter(Candidates(clean), VariantOf(clean))
    ensures forall v :: v in vs <==> v in Candidates(clean) && IsVariant(clean, v)
  {
    KeepVariants(clean, Trim(StripQualifier(clean)), Trim(StripGroups(clean)), Trim(Before(clean, ':')))
  }

  function KeepVariants(clean: string, a: string, b: string, c: string): (vs: seq<string>)
    ensures vs == Filter([a, b, c], VariantOf(clean))
    ensures |vs| <= 3
    ensures forall v :: v in vs <==> v in [a, b, c] && IsVariant(clean, v)
  {
    KeptFilter(clean, a, b, c);
    KeptIf(clean, a) + KeptIf(clean, b) + KeptIf(clean, c)
  }

  lemma KeptFilter(clean: string, a: string, b: string, c: string)
    ensures KeptIf(clean, a) + KeptIf(clean, b) + KeptIf(clean, c) == Filter([a, b, c], VariantOf(clean))
  {
    var p := VariantOf(clean);
    assert [a, b, c][1..] == [b, c] && [b, c][1..] == [c] && [c][1..] == [];
    assert Filter([c], p) == KeptIf(clean, c);
    assert Filter([b, c], p) == KeptIf(clean, b) + KeptIf(clean, c);
  }

  /** Completeness of QualifierLength: a colon, any whitespace, one of the keywords in
      any mix of ASCII cases (s[j..k]), whitespace, and a digit run up to e that is
      not followed by a digit are matched, and the match ends at e. */
  lemma QualifierAt(s: string, j: nat, k: nat, m: nat, e: nat)
    requires s != [] && s[0] == ':'
    requires 1 <= j <= k < m < e <= |s|
    requires forall x | 1 <= x < j :: IsSpace(s[x])
    requires IsKeyword(s[j..k])
    requires forall x | k <= x < m :: IsSpace(s[x])
    requires forall x | m <= x < e :: IsDigit(s[x])
    requires e == |s| || !IsDigit(s[e])
    ensures QualifierLength(s) == Some(e)
  {
    KeywordEndAt(s, j, k);
    RunTo(s, IsSpace, 1, j);
    NumberEndAt(s, k, m, e);
  }

  /** Whitespace from k to m and digits from m to e, not followed by a digit, are
      matched by `\s+\d+` at k, up to e. */
  lemma NumberEndAt(s: string, k: nat, m: nat, e: nat)
    requires k < m < e <= |s|
    requires forall x | k <= x < m :: IsSpace(s[x])
    requires forall x | m <= x < e :: IsDigit(s[x])
    requires e == |s| || !IsDigit(s[e])
    ensures NumberEnd(s, k) == Some(e)
  {
    RunTo(s, IsSpace, k, m);
    RunTo(s, IsDigit, m, e);
  }

  /** Characters satisfying p from position i up to e, followed by the end of s or by a
      character failing p, make up the whole run from i. */
  lemma RunTo(s: string, p: char -> bool, i: nat, e: nat)
    requires i <= e <= |s| && forall x | i <= x < e :: p(s[x])
    requires e == |s| || !p(s[e])
    ensures i + RunFrom(s, p, i) == e
  {
  }

  /** A keyword, in any mix of ASCII cases, at s[j..k] is matched whole, and its
      first letter is not whitespace. */
  lemma KeywordEndAt(s: string, j: nat, k: nat)
    requires j <= k <= |s| && IsKeyword(s[j..k])
    ensures KeywordEnd(s, j) == Some(k)
    ensures !IsSpace(s[j])
  {
    var kw := Lower(s[j..k]);
    var u :| 0 <= u < |Keywords| && Keywords[u] == kw;
    assert MatchesAt(s, j, Keywords[u]) by {
      forall d | 0 <= d < |kw| ensures LowerChar(s[j + d]) == kw[d] {
        assert s[j..k][d] == s[j + d];
      }
    }
    var v := KeywordFrom(s, j, 0).value;
    assert LowerChar(s[j]) == Keywords[v][0] == kw[0];
    KeywordsDiffer(Keywords[v], kw);
  }

  /** No two keywords start with the same letter, and none with whitespace. */
  lemma KeywordsDiffer(a: string, b: string)
    requires a in Keywords && b in Keywords && a[0] == b[0]
    ensures a == b
  {
  }

  /** The qualifier ": Part <digits>" is recognised whole. */
  lemma PartQualifier(digits: string)
    requires IsNumeral(digits)
    ensures QualifierLength(": Part " + digits) == Some(7 + |digits|)
  {
    var s := ": Part " + digits;
    assert s[..7] == ": Part ";
    assert s[2..6] == "Part";
    assert Lower("Part") == "part";
    assert forall x | 7 <= x < |s| :: s[x] == digits[x - 7];
    QualifierAt(s, 2, 6, 7, |s|);
  }

  /** A colon-free title followed by a whole qualifier loses exactly that qualifier. */
  lemma StripQualifierSuffix(a: string, tail: string)
    requires ':' !in a
    requires QualifierLength(tail) == Some(|tail|)
    ensures StripQualifier(a + tail) == a
  {
    var s := a + tail;
    assert s[|a|..] == tail;
    forall j | 0 <= j < |a| ensures QualifierLength(s[j..]).None? {
      assert s[j..][0] == a[j];
    }
    LeftmostIs(s, QualifierLength, |a|);
    assert s[..|a|] == a && s[|a| + |tail|..] == [];
  }

  /** The leftmost match is at i when there is one at i and none before it. */
  lemma LeftmostIs(s: string, at: string -> Option<nat>, i: nat)
    requires i <= |s| && at(s[i..]).Some?
    requires forall j | 0 <= j < i :: at(s[j..]).None?
    ensures Leftmost(s, at) == Some(i)
  {
  }

  /** For instance, "Title: Part 2" is searched again as "Title". */
  lemma StripNumberedPart(a: string, digits: string)
    requires ':' !in a
    requires IsNumeral(digits)
    ensures StripQualifier(a + ": Part " + digits) == a
  {
    var tail := ": Part " + digits;
    Regroup(a, ": Part ", digits, []);
    assert QualifierLength(tail) == Some(|tail|) by {
      PartQualifier(digits);
    }
    StripQualifierSuffix(a, tail);
  }

  /** Whitespace from i to o, `(` at o, characters other than `)` and line ends up
      to c, and `)` at c: one match, ending just after c. */
  lemma GroupEndAt(s: string, i: nat, o: nat, c: nat)
    requires i <= o < c < |s|
    requires forall x | i <= x < o :: IsSpace(s[x])
    requires s[o] == '(' && s[c] == ')'
    requires forall x | o < x < c :: InGroup(s[x])
    ensures GroupEnd(s, i) == Some(c + 1)
  {
    RunTo(s, IsSpace, i, o);
    RunTo(s, InGroup, o + 1, c);
  }

  /** Whitespace, `(`, a run of characters other than `)` and line ends, and the
      closing `)` form one match, whatever follows. */
  lemma GroupAt(ws: string, body: string, rest: string)
    requires IsBlank(ws)
    requires forall k | 0 <= k < |body| :: InGroup(body[k])
    ensures GroupEnd(ws + "(" + body + ")" + rest, 0) == Some(|ws| + |body| + 2)
  {
    var s := ws + "(" + body + ")" + rest;
    var o := |ws|;
    var c := |ws| + 1 + |body|;
    assert forall x | 0 <= x < o :: s[x] == ws[x];
    assert forall x | o < x < c :: s[x] == body[x - o - 1];
    GroupEndAt(s, 0, o, c);
  }

  /** " (note)" is one match when note has no `)` and no line end. */
  lemma GroupWhole(note: string)
    requires forall k | 0 <= k < |note| :: InGroup(note[k])
    ensures GroupEnd(" (" + note + ")", 0) == Some(|note| + 3)
  {
    GroupAt(" ", note, []);
    assert " " + "(" + note + ")" + [] == " (" + note + ")";
  }

  /** Where no match starts between i and j, those characters are kept as they are. */
  lemma {:induction false} KeepFrom(s: string, i: nat, j: nat)
    requires i <= j <= |s|
    requires forall x | i <= x < j :: GroupEnd(s, x).None?
    ensures StripFrom(s, i) == s[i..j] + StripFrom(s, j)
    decreases j - i
  {
    if i < j {
      assert s[i..j] == [s[i]] + s[i + 1..j];
      KeepOne(s, i);
      KeepFrom(s, i + 1, j);
      Regroup([s[i]], s[i + 1..j], StripFrom(s, j), []);
    } else {
      assert s[i..j] == [];
    }
  }

  /** Where no match starts, the character is kept and the scan moves on by one. */
  lemma KeepOne(s: string, i: nat)
    requires i < |s| && GroupEnd(s, i).None?
    ensures StripFrom(s, i) == [s[i]] + StripFrom(s, i + 1)
  {
  }

  /** No match starts at a position x before k when s has no `(` from x up to a
      non-space character at k. */
  lemma NoGroupBefore(s: string, x: nat, k: nat)
    requires x <= k < |s| && !IsSpace(s[k])
    requires forall y | x <= y <= k :: s[y] != '('
    ensures GroupEnd(s, x).None?
  {
    var o := x + RunFrom(s, IsSpace, x);
    assert o <= k;
  }

  /** No match starts anywhere in a text without `(`. */
  lemma NoGroupAt(s: string, x: nat)
    requires x <= |s| && '(' !in s
    ensures GroupEnd(s, x).None?
  {
    var o := x + RunFrom(s, IsSpace, x);
    assert o < |s| ==> s[o] in s;
  }

  /** A parenthesis-free prefix s[..j] that does not end in whitespace is kept
      whole, and the scan goes on from j. */
  lemma KeepPrefix(s: string, j: nat)
    requires j <= |s|
    requires forall x | 0 <= x < j :: s[x] != '('
    requires j == 0 || !IsSpace(s[j - 1])
    ensures StripGroups(s) == s[..j] + StripFrom(s, j)
  {
    forall x | 0 <= x < j ensures GroupEnd(s, x).None? {
      NoGroupBefore(s, x, j - 1);
    }
    KeepFrom(s, 0, j);
    assert s[0..j] == s[..j];
  }

  /** A group is removed after a parenthesis-free prefix s[..j] that does not end
      in whitespace: the prefix is kept, the group from j to c is cut out, and the
      scan resumes just after c. */
  lemma StripGroupsAfter(s: string, j: nat, o: nat, c: nat)
    requires j <= o < c < |s|
    requires forall x | 0 <= x < j :: s[x] != '('
    requires j == 0 || !IsSpace(s[j - 1])
    requires forall x | j <= x < o :: IsSpace(s[x])
    requires s[o] == '(' && s[c] == ')'
    requires forall x | o < x < c :: InGroup(s[x])
    ensures StripGroups(s) == s[..j] + StripFrom(s, c + 1)
  {
    GroupEndAt(s, j, o, c);
    SkipGroup(s, j, c + 1);
    KeepPrefix(s, j);
  }

  /** Where a match starts, the scan jumps to its end. */
  lemma SkipGroup(s: string, i: nat, e: nat)
    requires i < |s| && GroupEnd(s, i) == Some(e)
    ensures StripFrom(s, i) == StripFrom(s, e)
  {
  }

  /** A title ending in one parenthesised annotation, " (2015)" say, loses it:
      the text before it is kept whole when it has no parenthesis and does not
      end in whitespace. */
  lemma StripTrailingGroup(a: string, note: string)
    requires '(' !in a
    requires a == [] || !IsSpace(a[|a| - 1])
    requires forall k | 0 <= k < |note| :: InGroup(note[k])
    ensures StripGroups(a + " (" + note + ")") == a
  {
    var s := a + " (" + note + ")";
    var j := |a|;
    var c := |s| - 1;
    assert forall x | 0 <= x < j :: s[x] == a[x];
    assert forall x | j + 1 < x < c :: s[x] == note[x - j - 2];
    StripGroupsAfter(s, j, j + 1, c);
    assert s[..j] == a;
  }

  /** A title without parentheses keeps all its characters. */
  lemma StripGroupsNoParen(s: string)
    requires '(' !in s
    ensures StripGroups(s) == s
  {
    forall x | 0 <= x < |s| ensures GroupEnd(s, x).None? {
      NoGroupAt(s, x);
    }
    KeepFrom(s, 0, |s|);
    assert s[0..|s|] == s;
  }

  /** Variants are not de-duplicated among themselves: "Title: Part 2" yields
      "Title" twice, from the qualifier rule and from the colon rule. */
  lemma RepeatedVariant(a: string, digits: string)
    requires a != [] && !IsSpace(a[0]) && !IsSpace(a[|a| - 1])
    requires ':' !in a && '(' !in a
    requires IsNumeral(digits)
    ensures Variations(a + ": Part " + digits) == [a, a]
  {
    StripNumberedPart(a, digits);
    NumberedPartHasNoGroup(a, digits);
    NumberedPartTrimmed(a, digits);
    NumberedPartBeforeColon(a, digits);
    TrimTrimmed(a);
    VariationsOf(a + ": Part " + digits, a);
  }

  lemma NumberedPartHasNoGroup(a: string, digits: string)
    requires '(' !in a
    requires forall k | 0 <= k < |digits| :: IsDigit(digits[k])
    ensures StripGroups(a + ": Part " + digits) == a + ": Part " + digits
  {
    NoParenInNumberedPart(a, digits);
    StripGroupsNoParen(a + ": Part " + digits);
  }

  lemma NumberedPartTrimmed(a: string, digits: string)
    requires a != [] && !IsSpace(a[0])
    requires digits != [] && IsDigit(digits[|digits| - 1])
    ensures Trim(a + ": Part " + digits) == a + ": Part " + digits
    ensures a + ": Part " + digits != a
  {
    var clean := a + ": Part " + digits;
    assert clean[0] == a[0];
    assert clean[|clean| - 1] == digits[|digits| - 1];
    TrimTrimmed(clean);
  }

  lemma NumberedPartBeforeColon(a: string, digits: string)
    requires ':' !in a
    ensures Before(a + ": Part " + digits, ':') == a
  {
    var tail := ": Part " + digits;
    assert a + tail == a + ": Part " + digits;
    BeforeColon(a, tail);
  }

  lemma VariationsOf(clean: string, a: string)
    requires StripQualifier(clean) == a && StripGroups(clean) == clean && Before(clean, ':') == a
    requires Trim(a) == a && Trim(clean) == clean && a != [] && a != clean
    ensures Variations(clean) == [a, a]
  {
    KeptTwice(clean, a);
  }

  lemma KeptTwice(clean: string, a: string)
    requires a != [] && a != clean
    ensures KeepVariants(clean, a, clean, a) == [a, a]
  {
    assert KeptIf(clean, a) == [a] && KeptIf(clean, clean) == [];
  }

  lemma NoParenInNumberedPart(a: string, digits: string)
    requires '(' !in a
    requires forall k | 0 <= k < |digits| :: IsDigit(digits[k])
    ensures '(' !in a + ": Part " + digits
  {
    assert forall k | 0 <= k < |digits| :: digits[k] != '(';
  }

  lemma BeforeColon(a: string, rest: string)
    requires ':' !in a && rest != [] && rest[0] == ':'
    ensures Before(a + rest, ':') == a
  {
    var s := a + rest;
    assert s[|a|] == ':';
    assert forall i | 0 <= i < |a| :: s[i] == a[i];
    LeadingRunIs(s, x => x != ':', |a|);
    assert s[..|a|] == a;
  }

  // ---------------------------------------------------------------------
  // Ranking the hits of the verbatim search
  // ---------------------------------------------------------------------

  /** `m.Title.toLowerCase() === cleanTitle.toLowerCase()` */
  predicate IsExact(h: Hit, q: string) {
    Lower(h.title) == Lower(q)
  }

  /** The title contains the query, or the query contains the title's part before
      its first colon; both compared in lower case. */
  predicate IsPartial(h: Hit, q: string) {
    Contains(Lower(h.title), Lower(q)) || Contains(Lower(q), Before(Lower(h.title), ':'))
  }

  /** `exactMatch || partialMatch || Search[0]`, as an index into the hits. */
  function BestMatch(hits: seq<Hit>, q: string): (k: nat)
    requires hits != []
    ensures k < |hits|
    ensures (exists j | 0 <= j < |hits| :: IsExact(hits[j], q)) ==>
      IsExact(hits[k], q) && forall j | 0 <= j < k :: !IsExact(hits[j], q)
    ensures (forall j | 0 <= j < |hits| :: !IsExact(hits[j], q)) && (exists j | 0 <= j < |hits| :: IsPartial(hits[j], q)) ==>
      IsPartial(hits[k], q) && forall j | 0 <= j < k :: !IsPartial(hits[j], q)
    ensures (forall j | 0 <= j < |hits| :: !IsExact(hits[j], q) && !IsPartial(hits[j], q)) ==> k == 0
  {
    match FirstIndex(hits, h => IsExact(h, q))
    case Some(i) => i
    case None =>
      match FirstIndex(hits, h => IsPartial(h, q))
      case Some(i) => i
      case None => 0
  }
}
