/** What geminiApi.js does with a Gemini reply once the HTTP call has returned:
    the suggestion list (parsed array or line-by-line fallback), the storyline
    with its quotes stripped, and the age rating normalised against a fixed list.
    A reply is `Call<Option<string>>`: a thrown request, or the optional text at
    `candidates[0].content.parts[0].text`. */
module Gemini {
  import opened Util
  import opened Strings
  import opened Net

  /** An element of a parsed JSON array: a string, or any other JSON value. */
  datatype Json = JString(s: string) | JOther

  /** What `JSON.parse` makes of the cleaned reply text. */
  datatype Parsed = JArray(items: seq<Json>) | NotArray | Unparseable

  /** True when a reply carries text: `if (!text)` treats a missing and an empty text alike. */
  predicate HasText(reply: Call<Option<string>>) {
    reply.Done? && reply.value.Some? && reply.value.value != []
  }

  // ---------------------------------------------------------------------
  // Suggestions
  // ---------------------------------------------------------------------

  /** `parsed.filter(item => typeof item === 'string' && item.trim().length > 0)` */
  function TitlesOf(items: seq<Json>): (titles: seq<string>)
    ensures |titles| <= |items|
    ensures forall t :: t in titles <==> JString(t) in items && !IsBlank(t)
  {
    if items == [] then []
    else (if items[0].JString? && Trim(items[0].s) != [] then [items[0].s] else []) + TitlesOf(items[1..])
  }

  /** The kept strings keep the order of the array. */
  lemma {:induction false} TitlesOfAppend(a: seq<Json>, b: seq<Json>)
    ensures TitlesOf(a + b) == TitlesOf(a) + TitlesOf(b)
  {
    if a == [] {
      assert a + b == b;
    } else {
      assert (a + b)[0] == a[0];
      assert (a + b)[1..] == a[1..] + b;
      TitlesOfAppend(a[1..], b);
    }
  }

  predicate NonBlankLine(line: string) {
    Trim(line) != []
  }

  /** `item.length > 1`, counted in UTF-16 code units as JavaScript does. */
  predicate LongerThanOne(item: string) {
    CodeUnits(item) > 1
  }

  /** A single character outside the Basic Multilingual Plane, such as an emoji, is
      two code units long, so the item passes the length filter. */
  lemma AstralItemKept()
    ensures LongerThanOne("\U{1F3AC}")
  {
  }

  /** The lines of the text that are not blank, in order. */
  function NonBlankLines(text: string): (lines: seq<string>)
    ensures forall line :: line in lines <==> line in Split(text, '\n') && !IsBlank(line)
  {
    Filter(Split(text, '\n'), NonBlankLine)
  }

  /** The fallback when the text does not parse: the non-blank lines, the items
      `lineItems` extracts from each (the quoted strings, else up to two word
      runs), flattened in line order, those longer than one character, the first 8. */
  function FallbackTitles(text: string, lineItems: string -> seq<string>): (titles: seq<string>)
    ensures var items := Filter(Flatten(Map(NonBlankLines(text), lineItems)), LongerThanOne);
      IsPrefix(titles, items) && |titles| == Min(8, |items|)
    ensures forall t | t in titles :: CodeUnits(t) > 1
    ensures forall t | t in titles ::
      exists line | line in Split(text, '\n') && !IsBlank(line) :: t in lineItems(line)
  {
    var lines := NonBlankLines(text);
    var extracted := Flatten(Map(lines, lineItems));
    var titles := Take(Filter(extracted, LongerThanOne), 8);
    assert forall t | t in titles :: t in extracted && CodeUnits(t) > 1 by {
      forall t | t in titles
        ensures t in extracted && CodeUnits(t) > 1
      {
        TakeMember(Filter(extracted, LongerThanOne), 8, t);
      }
    }
    assert forall t | t in extracted ::
      exists line | line in Split(text, '\n') && !IsBlank(line) :: t in lineItems(line) by {
      forall t | t in extracted
        ensures exists line | line in Split(text, '\n') && !IsBlank(line) :: t in lineItems(line)
      {
        var i :| 0 <= i < |lines| && t in Map(lines, lineItems)[i];
        assert lines[i] in lines;
        assert t in lineItems(lines[i]);
      }
    }
    titles
  }

  /** The items of the lines before a line come first: the fallback reads the
      reply top to bottom. */
  lemma FallbackLineOrder(a: seq<string>, b: seq<string>, lineItems: string -> seq<string>)
    ensures Flatten(Map(a + b, lineItems)) == Flatten(Map(a, lineItems)) + Flatten(Map(b, lineItems))
  {
    assert Map(a + b, lineItems) == Map(a, lineItems) + Map(b, lineItems);
    FlattenAppend(Map(a, lineItems), Map(b, lineItems));
  }

  lemma TakeMember(xs: seq<string>, n: nat, x: string)
    requires x in Take(xs, n)
    ensures x in xs
  {
    var r := Take(xs, n);
    var k :| 0 <= k < |r| && r[k] == x;
    assert xs[..|r|][k] == x;
  }

  /** getAIMovieSuggestions after the request: `[]` without a key, on a thrown
      request or without text; the non-blank strings of a non-empty parsed array;
      `[]` for anything else that parses; the line-by-line fallback otherwise. */
  function Suggestions(hasKey: bool, reply: Call<Option<string>>,
                       parse: string -> Parsed, lineItems: string -> seq<string>): (titles: seq<string>)
    ensures titles != [] ==> hasKey && HasText(reply)
    ensures hasKey && HasText(reply) && parse(reply.value.value).JArray? ==>
      titles == TitlesOf(parse(reply.value.value).items)
    ensures hasKey && HasText(reply) && parse(reply.value.value).NotArray? ==> titles == []
    ensures hasKey && HasText(reply) && parse(reply.value.value).Unparseable? ==>
      titles == FallbackTitles(reply.value.value, lineItems)
    ensures forall t | t in titles :: t != []
  {
    if !hasKey || !HasText(reply) then []
    else
      var text := reply.value.value;
      match parse(text)
      case JArray(items) => if items != [] then TitlesOf(items) else []
      case NotArray => []
      case Unparseable => FallbackTitles(text, lineItems)
  }

  // ---------------------------------------------------------------------
  // Quote cleaning and the storyline
  // ---------------------------------------------------------------------

  predicate IsQuote(c: char) {
    c == '"' || c == '\''
  }

  /** r is s without one quote at its start, when it starts with one, and without
      one quote at its end, when it ends with one after that first quote. */
  predicate Unquoted(s: string, r: string) {
    var lead := if s != [] && IsQuote(s[0]) then [s[0]] else [];
    var trail := if |s| >= 2 && IsQuote(s[|s| - 1]) then [s[|s| - 1]] else [];
    s == lead + r + trail
  }

  /** `s.replace(/^["']|["']$/g, '')`: one leading and one trailing quote of either kind go. */
  function StripQuotes(s: string): (r: string)
    ensures Unquoted(s, r)
    ensures |r| <= |s| <= |r| + 2
    ensures s != [] && !IsQuote(s[0]) && !IsQuote(s[|s| - 1]) ==> r == s
  {
    var a := if s != [] && IsQuote(s[0]) then 1 else 0;
    var b := if |s| > a && IsQuote(s[|s| - 1]) then |s| - 1 else |s|;
    assert s == s[..a] + s[a..b] + s[b..];
    s[a..b]
  }

  /** What is left after the quotes is determined: Unquoted has one solution. */
  lemma UnquotedUnique(s: string, r1: string, r2: string)
    requires Unquoted(s, r1) && Unquoted(s, r2)
    ensures r1 == r2
  {
    var lead := if s != [] && IsQuote(s[0]) then [s[0]] else [];
    var trail := if |s| >= 2 && IsQuote(s[|s| - 1]) then [s[|s| - 1]] else [];
    assert r1 == s[|lead|..|s| - |trail|];
    assert r2 == s[|lead|..|s| - |trail|];
  }

  /** Exactly one quote is removed at each end, whatever the text between them holds. */
  lemma QuotesAroundRemoved(open: char, t: string, close: char)
    requires IsQuote(open) && IsQuote(close)
    ensures StripQuotes([open] + t + [close]) == t
  {
    var s := [open] + t + [close];
    assert s[1..|s| - 1] == t;
  }

  /** A lone quote is removed entirely. */
  lemma LoneQuoteRemoved(q: char)
    requires IsQuote(q)
    ensures StripQuotes([q]) == []
  {
  }

  /** getMovieStoryline after the request: null without a key, on a thrown request
      or without text; otherwise the trimmed text without its surrounding quotes. */
  function Storyline(hasKey: bool, reply: Call<Option<string>>): (r: Option<string>)
    ensures r.Some? <==> hasKey && HasText(reply)
    ensures r.Some? ==> Unquoted(Trim(reply.value.value), r.value)
    ensures r.Some? ==> |r.value| <= |Trim(reply.value.value)| <= |r.value| + 2
  {
    if !hasKey || !HasText(reply) then None
    else Some(StripQuotes(Trim(reply.value.value)))
  }

  // ---------------------------------------------------------------------
  // Age rating
  // ---------------------------------------------------------------------

  /** The list the reply is matched against, in the code's order. */
  const Ratings: seq<string> := ["R", "PG-13", "PG", "G", "NC-17", "TV-MA", "TV-14", "TV-PG", "18+", "16+", "12+", "NOT RATED"]

  /** `text.trim().replace(/^["']|["']$/g, '').toUpperCase()` */
  function CleanRating(text: string): (r: string)
    ensures |r| <= |text|
    ensures forall k | 0 <= k < |r| :: !('a' <= r[k] <= 'z')
    ensures IsBlank(text) ==> r == []
  {
    Upper(StripQuotes(Trim(text)))
  }

  /** `cleaned.split('\n')[0].split('.')[0].trim()` */
  function FirstPhrase(cleaned: string): (r: string)
    ensures '\n' !in r && '.' !in r
    ensures exists k | 0 <= k <= |cleaned| :: PhraseEnd(cleaned, k) && r == Trim(cleaned[..k])
  {
    var line := Before(cleaned, '\n');
    var phrase := Before(line, '.');
    assert phrase == cleaned[..|phrase|];
    assert PhraseEnd(cleaned, |phrase|);
    Trim(phrase)
  }

  /** Position k ends the first phrase of s: no newline and no '.' before it, and
      the end of s, a newline or a '.' at it. */
  predicate PhraseEnd(s: string, k: nat) {
    k <= |s| && '\n' !in s[..k] && '.' !in s[..k] && (k == |s| || s[k] == '\n' || s[k] == '.')
  }

  /** The first entry of `list` that occurs in `cleaned`, else its first phrase. */
  function MatchRating(cleaned: string, list: seq<string>): (rating: string)
    ensures (exists i | 0 <= i < |list| :: Contains(cleaned, list[i])) ==>
      exists i | 0 <= i < |list| :: rating == list[i] && Contains(cleaned, list[i])
        && forall j | 0 <= j < i :: !Contains(cleaned, list[j])
    ensures (forall i | 0 <= i < |list| :: !Contains(cleaned, list[i])) ==> rating == FirstPhrase(cleaned)
    ensures rating in list || rating == FirstPhrase(cleaned)
  {
    match FirstIndex(list, r => Contains(cleaned, r))
    case Some(i) => list[i]
    case None => FirstPhrase(cleaned)
  }

  /** Only one position ends the first phrase, so FirstPhrase's contract fixes its result. */
  lemma PhraseEndUnique(s: string, k1: nat, k2: nat)
    requires PhraseEnd(s, k1) && PhraseEnd(s, k2)
    ensures k1 == k2
  {
  }

  /** The normalisation of getMovieAgeRestriction as written: first entry of
      `Ratings`, in list order, that the cleaned reply contains. */
  function NormalizeRating(text: string): (rating: string)
    ensures rating in Ratings || rating == FirstPhrase(CleanRating(text))
    ensures var cleaned := CleanRating(text);
      (exists i | 0 <= i < |Ratings| :: Contains(cleaned, Ratings[i])) ==>
        exists i | 0 <= i < |Ratings| :: rating == Ratings[i] && Contains(cleaned, Ratings[i])
          && forall j | 0 <= j < i :: !Contains(cleaned, Ratings[j])
    ensures var cleaned := CleanRating(text);
      (forall i | 0 <= i < |Ratings| :: !Contains(cleaned, Ratings[i])) ==> rating == FirstPhrase(cleaned)
  {
    MatchRating(CleanRating(text), Ratings)
  }

  /** The entry matched is the first one the cleaned reply contains. */
  lemma FirstContained(cleaned: string, list: seq<string>, i: nat)
    requires i < |list| && Contains(cleaned, list[i])
    requires forall j | 0 <= j < i :: !Contains(cleaned, list[j])
    ensures MatchRating(cleaned, list) == list[i]
  {
    var found := FirstIndex(list, r => Contains(cleaned, r));
    assert found.Some? && found.value == i;
  }

  /** Any reply containing the letter R, in either case, is read as "R". */
  lemma RDominates(text: string)
    requires Contains(CleanRating(text), "R")
    ensures NormalizeRating(text) == "R"
  {
    assert Ratings[0] == "R";
  }

  /** A reply that contains none of the listed ratings gives its first phrase. */
  lemma UnlistedGivesFirstPhrase(text: string)
    requires forall r | r in Ratings :: !Contains(CleanRating(text), r)
    ensures NormalizeRating(text) == FirstPhrase(CleanRating(text))
    ensures var cleaned := CleanRating(text);
      exists k | 0 <= k <= |cleaned| :: PhraseEnd(cleaned, k) && NormalizeRating(text) == Trim(cleaned[..k])
  {
    assert forall i | 0 <= i < |Ratings| :: Ratings[i] in Ratings;
  }

  /** getMovieAgeRestriction after the request: null without a key, on a thrown
      request or without text; otherwise the normalised rating. */
  function AgeRestriction(hasKey: bool, reply: Call<Option<string>>): (r: Option<string>)
    ensures r.Some? <==> hasKey && HasText(reply)
    ensures r.Some? ==> r.value in Ratings || r.value == FirstPhrase(CleanRating(reply.value.value))
    ensures r.Some? ==> r.value == NormalizeRating(reply.value.value)
  {
    if !hasKey || !HasText(reply) then None
    else Some(NormalizeRating(reply.value.value))
  }

  // ---------------------------------------------------------------------
  // The two entries the list order hides, and the intended order
  // ---------------------------------------------------------------------

  /** A rating the model gives back unchanged: nothing to trim, no quotes at its
      ends, no lower-case letters. */
  predicate Plain(r: string) {
    r != [] && !IsSpace(r[0]) && !IsSpace(r[|r| - 1]) && !IsQuote(r[0]) && !IsQuote(r[|r| - 1])
    && forall k | 0 <= k < |r| :: !('a' <= r[k] <= 'z')
  }

  lemma PlainIsClean(r: string)
    requires Plain(r)
    ensures CleanRating(r) == r
  {
    TrimTrimmed(r);
    assert StripQuotes(r) == r;
    UpperPlain(r);
  }

  /** Upper-casing leaves a text without lower-case letters as it is. */
  lemma UpperPlain(r: string)
    requires forall k | 0 <= k < |r| :: !('a' <= r[k] <= 'z')
    ensures Upper(r) == r
  {
    var u := Upper(r);
    assert forall k | 0 <= k < |r| :: u[k] == r[k];
  }

  lemma ContainsSelf(s: string)
    ensures Contains(s, s)
  {
    assert s[..|s|] == s;
  }

  /** A string is not contained in one that is shorter, or as long and different. */
  lemma {:induction false} NotContainedLonger(s: string, t: string)
    requires |t| > |s| || (|t| == |s| && t != s)
    ensures !Contains(s, t)
    decreases |s|
  {
    assert !IsPrefix(t, s) by {
      if |t| == |s| {
        assert s[..|t|] == s;
      }
    }
    if s != [] {
      NotContainedLonger(s[1..], t);
    }
  }

  /** A string without the character c does not contain [c]. */
  lemma {:induction false} NotContainedChar(s: string, c: char)
    requires c !in s
    ensures !Contains(s, [c])
    decreases |s|
  {
    if s != [] {
      assert s[0] != c;
      NotContainedChar(s[1..], c);
    }
  }

  /** "Not Rated", the answer the prompt asks for when the rating is unknown, is read as "R". */
  lemma NotRatedReadAsR()
    ensures NormalizeRating("Not Rated") == "R"
  {
    NotRatedLetters();
    CapitalRReadAsR("Not Rated", 4);
  }

  /** A reply with a capital R inside and no spaces or quotes at its ends is read as "R". */
  lemma CapitalRReadAsR(text: string, k: nat)
    requires k < |text| && text[k] == 'R'
    requires !IsSpace(text[0]) && !IsSpace(text[|text| - 1]) && !IsQuote(text[0]) && !IsQuote(text[|text| - 1])
    ensures NormalizeRating(text) == "R"
  {
    CleanIsUpper(text);
    UpperKeeps(text, k);
    ContainsAt(CleanRating(text), "R", k);
    RDominates(text);
  }

  lemma NotRatedLetters()
    ensures var s := "Not Rated"; |s| == 9 && s[0] == 'N' && s[8] == 'd' && s[4] == 'R'
  {
  }

  /** Without spaces or quotes at its ends, a reply is only upper-cased. */
  lemma CleanIsUpper(s: string)
    requires s != [] && !IsSpace(s[0]) && !IsSpace(s[|s| - 1]) && !IsQuote(s[0]) && !IsQuote(s[|s| - 1])
    ensures CleanRating(s) == Upper(s)
  {
    TrimTrimmed(s);
  }

  lemma UpperKeeps(s: string, i: nat)
    requires i < |s| && !('a' <= s[i] <= 'z')
    ensures Upper(s)[i..i + 1] == [s[i]]
  {
  }

  /** "TV-PG" is read as "PG", which comes earlier in the list. */
  lemma TvPgReadAsPg()
    ensures NormalizeRating("TV-PG") == "PG"
  {
    var r := "TV-PG";
    assert Plain(r);
    ContainsAt(r, "PG", 3);
    NotContainedChar(r, 'R');
    NotContainedLonger(r, "PG-13");
    PlainIsClean(r);
    RatingsStart();
    ThirdRatingRead(r);
  }

  /** A reply whose cleaned form contains the third entry ("PG") but neither of the
      first two ("R", "PG-13") is read as the third. */
  lemma ThirdRatingRead(text: string)
    requires var cleaned := CleanRating(text);
      Contains(cleaned, Ratings[2]) && !Contains(cleaned, Ratings[0]) && !Contains(cleaned, Ratings[1])
    ensures NormalizeRating(text) == Ratings[2]
  {
    FirstContained(CleanRating(text), Ratings, 2);
  }

  lemma RatingsStart()
    ensures Ratings[0] == "R" && Ratings[1] == "PG-13" && Ratings[2] == "PG"
  {
  }

  /** The same entries, most specific first: longer ratings before the shorter
      ones they contain. */
  const RatingsBySpecificity: seq<string> := ["NOT RATED", "NC-17", "TV-MA", "TV-14", "TV-PG", "PG-13", "18+", "16+", "12+", "PG", "R", "G"]

  /** The normalisation with the list in that order. */
  function NormalizeRatingBySpecificity(text: string): (rating: string)
    ensures rating in RatingsBySpecificity || rating == FirstPhrase(CleanRating(text))
  {
    MatchRating(CleanRating(text), RatingsBySpecificity)
  }

  /** Every listed rating, answered as such, comes back as itself. */
  lemma ListedRatingKept(i: nat)
    requires i < |RatingsBySpecificity|
    ensures NormalizeRatingBySpecificity(RatingsBySpecificity[i]) == RatingsBySpecificity[i]
  {
    var list := RatingsBySpecificity;
    var r := list[i];
    ListedIsPlain(i);
    PlainIsClean(r);
    ContainsSelf(r);
    forall j | 0 <= j < i
      ensures !Contains(r, list[j])
    {
      SpecificFirst(j, i);
      NotContainedLonger(r, list[j]);
    }
    FirstContained(r, list, i);
  }

  lemma ListedIsPlain(i: nat)
    requires i < |RatingsBySpecificity|
    ensures Plain(RatingsBySpecificity[i])
  {
    if i == 0 {} else if i == 1 {} else if i == 2 {} else if i == 3 {} else if i == 4 {} else if i == 5 {}
    else if i == 6 {} else if i == 7 {} else if i == 8 {} else if i == 9 {} else if i == 10 {} else {}
  }

  /** Each entry is longer than the ones after it, or as long and different. */
  lemma SpecificFirst(j: nat, i: nat)
    requires j < i < |RatingsBySpecificity|
    ensures var list := RatingsBySpecificity;
      |list[j]| > |list[i]| || (|list[j]| == |list[i]| && list[j] != list[i])
  {
  }

  /** Every rating of the code's list is in the reordered one. */
  lemma SameRatings(r: string)
    requires r in Ratings
    ensures r in RatingsBySpecificity
  {
  }
}
