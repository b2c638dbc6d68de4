/** The work of fetchAiRecommendations (Home.jsx) for a non-blank prompt: ask for
    suggested titles, resolve at most ten of them to catalog records without
    repeating an id, and fall back to a keyword search on the prompt (at most six
    detail fetches) when there are no suggestions or none resolves. The row's
    error message is chosen by fixed rules. */
module Recommendations {
  import opened Util
  import opened Strings
  import opened Net
  import opened Omdb
  import opened TitleLookup

  /** The error messages the AI row can show. */
  datatype Notice =
    | NoMatchForQuery
    | NoneInDatabase
    | NothingFound
    | Partial(found: nat)
    | RequestFailed

  /** The number a run of decimal digits spells, most significant first. */
  function DigitsValue(s: string): nat
    requires forall i | 0 <= i < |s| :: IsDigit(s[i])
  {
    if s == [] then 0
    else
      assert IsDigit(s[|s| - 1]);
      10 * DigitsValue(s[..|s| - 1]) + (s[|s| - 1] as int - '0' as int)
  }

  /** `n` written in decimal, as a template literal writes a number: digits only,
      no leading zero, spelling n. */
  function Decimal(n: nat): (s: string)
    ensures IsNumeral(s)
    ensures s[0] != '0' || s == "0"
    ensures DigitsValue(s) == n
  {
    if n < 10 then [('0' as int + n) as char]
    else
      var s := Decimal(n / 10) + [('0' as int + n % 10) as char];
      assert s[..|s| - 1] == Decimal(n / 10);
      s
  }

  /** Different counts are written differently. */
  lemma DecimalInjective(a: nat, b: nat)
    requires Decimal(a) == Decimal(b)
    ensures a == b
  {
  }

  /** The text the row shows for each notice (Home.jsx's `setAiError` strings). */
  function Message(n: Notice): string {
    match n
    case NoMatchForQuery => "No movies found for this query. Try different words."
    case NoneInDatabase => "No movies found in database. Try searching for specific movie titles or popular films."
    case NothingFound => "No movies found. Please try specific movie titles or popular films that are in the IMDb database."
    case Partial(found) => "Found " + Decimal(found) + " movie(s). Some titles may not be in the database."
    case RequestFailed => "Failed to get recommendations. Please check your Gemini API key."
  }

  /** The partial-results text tells how many records came back: different counts
      give different texts. */
  lemma PartialCountShown(a: nat, b: nat)
    requires Message(Partial(a)) == Message(Partial(b))
    ensures a == b
  {
    var m := Message(Partial(a));
    var da, db := Decimal(a), Decimal(b);
    assert |da| == |db|;
    assert m[6..6 + |da|] == da;
    assert m[6..6 + |db|] == db;
    DecimalInjective(a, b);
  }

  /** What the row ends with, and every request issued on the way. */
  datatype Outcome = Outcome(movies: seq<Movie>, error: Option<Notice>, calls: seq<Request>)

  // ---------------------------------------------------------------------
  // Result list without repeated ids
  // ---------------------------------------------------------------------

  /** `results.find(m => m.imdbID === id)` finds something. */
  predicate HasId(ms: seq<Movie>, id: string) {
    exists m | m in ms :: m.imdbId == id
  }

  predicate DistinctIds(ms: seq<Movie>) {
    forall i, j | 0 <= i < j < |ms| :: ms[i].imdbId != ms[j].imdbId
  }

  /** Records whose reply did not say Response "False". */
  predicate Genuine(ms: seq<Movie>) {
    forall m | m in ms :: m.response != "False"
  }

  /** `if (!existing) results.push(m)` */
  function AddNew(ms: seq<Movie>, m: Movie): (r: seq<Movie>)
    ensures IsPrefix(ms, r) && |r| <= |ms| + 1
    ensures HasId(r, m.imdbId)
    ensures forall x | x in r :: x in ms || x == m
    ensures |r| == |ms| + 1 <==> !HasId(ms, m.imdbId)
    ensures DistinctIds(ms) ==> DistinctIds(r)
  {
    if HasId(ms, m.imdbId) then ms else ms + [m]
  }

  // ---------------------------------------------------------------------
  // The loop over suggested titles
  // ---------------------------------------------------------------------

  /** The loop's state: `results`, `failedTitles` and the requests so far. */
  datatype Tally = Tally(results: seq<Movie>, failed: seq<string>, calls: seq<Request>)

  /** getMovieByTitle(title.trim()), kept when it is not a Response "False" record. */
  function Primary(title: string, resolve: string -> Trial): (m: Option<Movie>)
    ensures m.Some? <==> resolve(Trim(title)).status.Found? && resolve(Trim(title)).status.movie.response != "False"
    ensures m.Some? ==> m.value == resolve(Trim(title)).status.movie
  {
    match Result(resolve(Trim(title)))
    case Some(m) => if m.response != "False" then Some(m) else None
    case None => None
  }

  /** getMovieByTitle as the title loop sees it: each title's trial. */
  function Resolver(search: string -> Call<SearchReply>, detail: string -> Call<Movie>): string -> Trial {
    q => Lookup(q, search, detail)
  }

  /** One title: getMovieByTitle on the trimmed title; when that gives null, the
      title is counted as failed and the first hit of a keyword search on it is
      fetched instead (see Retry). */
  function TitleStep(title: string, t: Tally, resolve: string -> Trial, search: string -> Call<SearchReply>, detail: string -> Call<Movie>): (r: Tally)
    ensures IsPrefix(t.results, r.results) && |r.results| <= |t.results| + 1
    ensures DistinctIds(t.results) ==> DistinctIds(r.results)
    ensures Genuine(t.results) ==> Genuine(r.results)
    ensures IsPrefix(t.failed, r.failed) && |r.failed| <= |t.failed| + 2
    ensures forall k | |t.failed| <= k < |r.failed| :: r.failed[k] == title
    ensures |r.failed| == |t.failed| <==> Primary(title, resolve).Some?
    ensures Primary(title, resolve).Some? ==> r.results == AddNew(t.results, Primary(title, resolve).value)
    ensures IsPrefix(t.calls + resolve(Trim(title)).calls, r.calls)
    ensures IsPrefix(t.calls, r.calls)
  {
    var lookupCalls := resolve(Trim(title)).calls;
    var r := AfterLookup(title, t, Primary(title, resolve), lookupCalls, search, detail);
    PrefixOfAppend(t.calls, lookupCalls, r.calls);
    r
  }

  /** The rest of one title's pass once getMovieByTitle has answered `primary`
      after issuing `lookupCalls`. */
  function AfterLookup(title: string, t: Tally, primary: Option<Movie>, lookupCalls: seq<Request>,
                       search: string -> Call<SearchReply>, detail: string -> Call<Movie>): (r: Tally)
    ensures IsPrefix(t.results, r.results) && |r.results| <= |t.results| + 1
    ensures DistinctIds(t.results) ==> DistinctIds(r.results)
    ensures Genuine(t.results) && (primary.Some? ==> primary.value.response != "False") ==> Genuine(r.results)
    ensures IsPrefix(t.failed, r.failed) && |r.failed| <= |t.failed| + 2
    ensures forall k | |t.failed| <= k < |r.failed| :: r.failed[k] == title
    ensures |r.failed| == |t.failed| <==> primary.Some?
    ensures IsPrefix(t.calls + lookupCalls, r.calls)
    ensures primary.Some? ==>
      r == Tally(AddNew(t.results, primary.value), t.failed, t.calls + lookupCalls)
    ensures primary.None? ==>
      |r.calls| > |t.calls + lookupCalls| && r.calls[|t.calls + lookupCalls|] == OmdbSearch(Trim(title))
  {
    match primary
    case Some(m) => Tally(AddNew(t.results, m), t.failed, t.calls + lookupCalls)
    case None =>
      var u := Tally(t.results, t.failed + [title], t.calls + lookupCalls + [OmdbSearch(Trim(title))]);
      var r := Retry(title, u, search, detail);
      assert IsPrefix(t.calls + lookupCalls, u.calls);
      assert r.failed == t.failed + [title] || r.failed == t.failed + [title] + [title];
      r
  }

  /** The else branch after `failedTitles.push(title)` and the keyword search
      request on the trimmed title: the first hit's details are fetched (its id
      is not checked), kept when new; a throw pushes the title once more. */
  function Retry(title: string, t: Tally, search: string -> Call<SearchReply>, detail: string -> Call<Movie>): (r: Tally)
    requires t.failed != [] && t.failed[|t.failed| - 1] == title
    ensures IsPrefix(t.results, r.results) && |r.results| <= |t.results| + 1
    ensures DistinctIds(t.results) ==> DistinctIds(r.results)
    ensures Genuine(t.results) ==> Genuine(r.results)
    ensures r.failed == t.failed || r.failed == t.failed + [title]
    ensures IsPrefix(t.calls, r.calls)
    ensures search(Trim(title)).Thrown? ==> r == Tally(t.results, t.failed + [title], t.calls)
    ensures search(Trim(title)).Done? && SearchResults(search(Trim(title)).value) == [] ==> r == t
    ensures search(Trim(title)).Done? && SearchResults(search(Trim(title)).value) != [] ==>
      var id := SearchResults(search(Trim(title)).value)[0].imdbId;
      r.calls == t.calls + [OmdbDetail(id)]
      && (detail(id).Thrown? ==> r.results == t.results && r.failed == t.failed + [title])
      && (detail(id).Done? && detail(id).value.response != "False" ==>
            r.results == AddNew(t.results, detail(id).value) && r.failed == t.failed)
      && (detail(id).Done? && detail(id).value.response == "False" ==>
            r.results == t.results && r.failed == t.failed)
  {
    match search(Trim(title))
    case Thrown => Tally(t.results, t.failed + [title], t.calls)
    case Done(reply) =>
      var alt := SearchResults(reply);
      if alt == [] then t
      else
        var id := alt[0].imdbId;
        var calls := t.calls + [OmdbDetail(id)];
        match detail(id)
        case Thrown => Tally(t.results, t.failed + [title], calls)
        case Done(reply) =>
          match MovieDetails(reply)
          case Some(found) => Tally(AddNew(t.results, found), t.failed, calls)
          case None => Tally(t.results, t.failed, calls)
  }

  /** The loop over the titles, from state t. */
  function Reconcile(titles: seq<string>, t: Tally, resolve: string -> Trial, search: string -> Call<SearchReply>, detail: string -> Call<Movie>): (r: Tally)
    ensures IsPrefix(t.results, r.results) && |r.results| <= |t.results| + |titles|
    ensures DistinctIds(t.results) ==> DistinctIds(r.results)
    ensures Genuine(t.results) ==> Genuine(r.results)
    ensures IsPrefix(t.failed, r.failed)
    ensures forall k | |t.failed| <= k < |r.failed| :: r.failed[k] in titles
    ensures IsPrefix(t.calls, r.calls)
    decreases |titles|
  {
    if titles == [] then t
    else
      var next := TitleStep(titles[0], t, resolve, search, detail);
      var r := Reconcile(titles[1..], next, resolve, search, detail);
      PrefixTransitive(t.results, next.results, r.results);
      PrefixTransitive(t.failed, next.failed, r.failed);
      PrefixTransitive(t.calls, next.calls, r.calls);
      assert forall k | |t.failed| <= k < |r.failed| :: r.failed[k] in titles by {
        forall k | |t.failed| <= k < |r.failed| ensures r.failed[k] in titles {
          if k < |next.failed| {
            assert r.failed[k] == next.failed[k];
          } else {
            assert r.failed[k] in titles[1..];
          }
        }
      }
      r
  }

  /** The loop from position i is one title's step followed by the loop from i + 1. */
  lemma ReconcileUnroll(titles: seq<string>, i: nat, t: Tally, resolve: string -> Trial,
                        search: string -> Call<SearchReply>, detail: string -> Call<Movie>)
    requires i < |titles|
    ensures Reconcile(titles[i..], t, resolve, search, detail)
         == Reconcile(titles[i + 1..], TitleStep(titles[i], t, resolve, search, detail), resolve, search, detail)
  {
    assert titles[i..][0] == titles[i] && titles[i..][1..] == titles[i + 1..];
  }

  /** A title whose lookup succeeds adds nothing to the failed titles; one whose
      lookup fails is added, even when the keyword search then supplies a record. */
  lemma FailedTitleRule(title: string, t: Tally, resolve: string -> Trial,
                         search: string -> Call<SearchReply>, detail: string -> Call<Movie>)
    ensures var r := TitleStep(title, t, resolve, search, detail);
      Primary(title, resolve).None? ==>
        |r.failed| > |t.failed| && r.failed[|t.failed|] == title
  {
  }

  /** Every title that getMovieByTitle resolves has its record's id among the
      results: a duplicate id is skipped, never a resolved title. */
  lemma {:induction false} ReconcileKeepsResolved(titles: seq<string>, t: Tally, resolve: string -> Trial,
                                                  search: string -> Call<SearchReply>, detail: string -> Call<Movie>)
    ensures var r := Reconcile(titles, t, resolve, search, detail);
      forall title | title in titles && Primary(title, resolve).Some? ::
        HasId(r.results, Primary(title, resolve).value.imdbId)
    decreases |titles|
  {
    if titles != [] {
      var next := TitleStep(titles[0], t, resolve, search, detail);
      var r := Reconcile(titles[1..], next, resolve, search, detail);
      ReconcileKeepsResolved(titles[1..], next, resolve, search, detail);
      forall title | title in titles && Primary(title, resolve).Some?
        ensures HasId(r.results, Primary(title, resolve).value.imdbId)
      {
        if title != titles[0] {
          assert title in titles[1..];
        } else {
          var m := Primary(title, resolve).value;
          var x :| x in next.results && x.imdbId == m.imdbId;
          PrefixKeeps(next.results, r.results, x);
        }
      }
    }
  }

  /** Every title that getMovieByTitle does not resolve is among the failed titles. */
  lemma {:induction false} ReconcileRecordsFailures(titles: seq<string>, t: Tally, resolve: string -> Trial,
                                                    search: string -> Call<SearchReply>, detail: string -> Call<Movie>)
    ensures var r := Reconcile(titles, t, resolve, search, detail);
      forall title | title in titles && Primary(title, resolve).None? :: title in r.failed
    decreases |titles|
  {
    if titles != [] {
      var next := TitleStep(titles[0], t, resolve, search, detail);
      var r := Reconcile(titles[1..], next, resolve, search, detail);
      ReconcileRecordsFailures(titles[1..], next, resolve, search, detail);
      forall title | title in titles && Primary(title, resolve).None?
        ensures title in r.failed
      {
        if title != titles[0] {
          assert title in titles[1..];
        } else {
          FailedTitleRule(title, t, resolve, search, detail);
          PrefixKeeps(next.failed, r.failed, next.failed[|t.failed|]);
        }
      }
    }
  }

  lemma PrefixKeeps<T>(p: seq<T>, s: seq<T>, x: T)
    requires IsPrefix(p, s) && x in p
    ensures x in s
  {
    var i :| 0 <= i < |p| && p[i] == x;
    assert s[i] == s[..|p|][i];
  }

  // ---------------------------------------------------------------------
  // The keyword fallback on the prompt
  // ---------------------------------------------------------------------

  /** The details loop's state: `detailedResults`, the requests, and whether a fetch threw. */
  datatype Gathered = Gathered(movies: seq<Movie>, calls: seq<Request>, threw: bool)

  /** A detail request for an id some hit carries. */
  predicate DetailOfHit(c: Request, hits: seq<Hit>) {
    c.OmdbDetail? && c.imdbId != "" && exists h | h in hits :: h.imdbId == c.imdbId
  }

  /** No hit with an id has a detail request that throws. */
  predicate NoThrow(hits: seq<Hit>, detail: string -> Call<Movie>) {
    forall h | h in hits && h.imdbId != "" :: detail(h.imdbId).Done?
  }

  /** The genuine details of the hits that carry an id, in the order of the hits. */
  function Details(hits: seq<Hit>, detail: string -> Call<Movie>): (ms: seq<Movie>)
    ensures |ms| <= |hits| && Genuine(ms)
  {
    if hits == [] then []
    else
      var id := hits[0].imdbId;
      (if id != "" && detail(id).Done? && detail(id).value.response != "False" then [detail(id).value] else [])
      + Details(hits[1..], detail)
  }

  /** The loop over hits: a hit with an id has its details fetched; a record
      that is not Response "False" is kept; a throw ends the loop. */
  function FetchAll(hits: seq<Hit>, g: Gathered, detail: string -> Call<Movie>): (r: Gathered)
    ensures IsPrefix(g.movies, r.movies) && |r.movies| <= |g.movies| + |hits|
    ensures Genuine(g.movies) ==> Genuine(r.movies)
    ensures IsPrefix(g.calls, r.calls) && |r.calls| <= |g.calls| + |hits|
    ensures g.threw ==> r == g
    decreases |hits|
  {
    if hits == [] || g.threw then g
    else FetchAll(hits[1..], FetchOne(hits[0], g, detail), detail)
  }

  /** Without a throw the loop keeps exactly the genuine details of the hits, in
      order; it stops with `threw` exactly when some detail request throws. */
  lemma {:induction false} FetchAllKeepsDetails(hits: seq<Hit>, g: Gathered, detail: string -> Call<Movie>)
    requires !g.threw
    ensures var r := FetchAll(hits, g, detail);
      (r.threw <==> !NoThrow(hits, detail))
      && (NoThrow(hits, detail) ==> r.movies == g.movies + Details(hits, detail))
    decreases |hits|
  {
    if hits != [] {
      var next := FetchOne(hits[0], g, detail);
      NoThrowSplit(hits, detail);
      if !next.threw {
        FetchAllKeepsDetails(hits[1..], next, detail);
        var id := hits[0].imdbId;
        var own := if id != "" && detail(id).Done? && detail(id).value.response != "False" then [detail(id).value] else [];
        assert Details(hits, detail) == own + Details(hits[1..], detail);
        assert next.movies == g.movies + own;
        Regroup(g.movies, own, Details(hits[1..], detail), []);
      }
    }
  }

  /** No throw among the hits is no throw for the first and none among the rest. */
  lemma NoThrowSplit(hits: seq<Hit>, detail: string -> Call<Movie>)
    requires hits != []
    ensures NoThrow(hits, detail) <==>
      (hits[0].imdbId != "" ==> detail(hits[0].imdbId).Done?) && NoThrow(hits[1..], detail)
  {
    assert hits[0] in hits;
    assert forall h | h in hits[1..] :: h in hits;
    assert forall h | h in hits :: h == hits[0] || h in hits[1..];
  }

  /** Every request the loop adds fetches the details of one of the hits. */
  lemma {:induction false} FetchAllRequestsHits(hits: seq<Hit>, g: Gathered, detail: string -> Call<Movie>)
    ensures forall k | |g.calls| <= k < |FetchAll(hits, g, detail).calls| ::
      DetailOfHit(FetchAll(hits, g, detail).calls[k], hits)
    decreases |hits|
  {
    if hits != [] && !g.threw {
      var next := FetchOne(hits[0], g, detail);
      var r := FetchAll(hits[1..], next, detail);
      assert r == FetchAll(hits, g, detail);
      FetchAllRequestsHits(hits[1..], next, detail);
      assert forall k | |next.calls| <= k < |r.calls| :: DetailOfHit(r.calls[k], hits[1..]);
      forall k | |g.calls| <= k < |r.calls| ensures DetailOfHit(r.calls[k], hits) {
        if k < |next.calls| {
          assert hits[0].imdbId != "" && next.calls == g.calls + [OmdbDetail(hits[0].imdbId)];
          assert r.calls[k] == next.calls[k] == OmdbDetail(hits[0].imdbId);
          assert hits[0] in hits;
        } else {
          var h :| h in hits[1..] && h.imdbId == r.calls[k].imdbId;
          assert h in hits;
        }
      }
    }
  }

  /** One pass of that loop, for the hit h. */
  function FetchOne(h: Hit, g: Gathered, detail: string -> Call<Movie>): (next: Gathered)
    ensures IsPrefix(g.movies, next.movies) && |next.movies| <= |g.movies| + 1
    ensures Genuine(g.movies) ==> Genuine(next.movies)
    ensures h.imdbId == "" ==> next == g
    ensures h.imdbId != "" ==> next.calls == g.calls + [OmdbDetail(h.imdbId)]
    ensures next.threw <==> g.threw || (h.imdbId != "" && detail(h.imdbId).Thrown?)
    ensures h.imdbId != "" && detail(h.imdbId).Thrown? ==> next.movies == g.movies
    ensures h.imdbId != "" && detail(h.imdbId).Done? ==>
      next.movies == g.movies + (if detail(h.imdbId).value.response != "False" then [detail(h.imdbId).value] else [])
  {
    var id := h.imdbId;
    if id == "" then g
    else
      match detail(id)
      case Thrown => Gathered(g.movies, g.calls + [OmdbDetail(id)], true)
      case Done(reply) =>
        Gathered(g.movies + (if MovieDetails(reply).Some? then [reply] else []), g.calls + [OmdbDetail(id)], g.threw)
  }

  /** `fetchMoviesByKeyword(prompt)`, then the details of the first six hits.
      `noDetails` is the message when no record came back, `noHits` the one when
      the search had no hits; a throw ends in the catch-all message with no movies. */
  function KeywordFallback(prompt: string, calls: seq<Request>, noDetails: Notice, noHits: Notice,
                           search: string -> Call<SearchReply>, detail: string -> Call<Movie>): (o: Outcome)
    ensures |o.movies| <= 6 && Genuine(o.movies)
    ensures |o.calls| > |calls| && o.calls[..|calls| + 1] == calls + [OmdbSearch(prompt)]
    ensures o.error.None? <==> o.movies != []
    ensures o.error.Some? ==> o.error.value in {noDetails, noHits, RequestFailed}
    ensures o.error == Some(noHits) && noHits != RequestFailed && noHits != noDetails ==>
      search(prompt).Done? && SearchResults(search(prompt).value) == []
    ensures |o.calls| <= |calls| + 7
    ensures search(prompt).Thrown? ==> o == Outcome([], Some(RequestFailed), calls + [OmdbSearch(prompt)])
    ensures search(prompt).Done? && SearchResults(search(prompt).value) == [] ==>
      o == Outcome([], Some(noHits), calls + [OmdbSearch(prompt)])
    ensures search(prompt).Done? && SearchResults(search(prompt).value) != [] ==>
      var firstSix := Take(SearchResults(search(prompt).value), 6);
      (NoThrow(firstSix, detail) ==>
         o.movies == Details(firstSix, detail) && (o.error.Some? ==> o.error == Some(noDetails)))
      && (!NoThrow(firstSix, detail) ==> o.movies == [] && o.error == Some(RequestFailed))
  {
    var issued := calls + [OmdbSearch(prompt)];
    match search(prompt)
    case Thrown => Outcome([], Some(RequestFailed), issued)
    case Done(reply) =>
      var hits := SearchResults(reply);
      if hits == [] then Outcome([], Some(noHits), issued)
      else
        var firstSix := Take(hits, 6);
        var g := FetchAll(firstSix, Gathered([], issued, false), detail);
        assert g.calls[..|calls| + 1] == issued;
        FetchAllKeepsDetails(firstSix, Gathered([], issued, false), detail);
        assert [] + Details(firstSix, detail) == Details(firstSix, detail);
        if g.threw then Outcome([], Some(RequestFailed), g.calls)
        else Outcome(g.movies, if g.movies == [] then Some(noDetails) else None, g.calls)
  }

  // ---------------------------------------------------------------------
  // The whole flow
  // ---------------------------------------------------------------------

  /** The message once the title loop has some results: the partial-results
      message exactly when a title failed and fewer than three records came back. */
  function PartialNotice(t: Tally): (n: Option<Notice>)
    ensures n.Some? <==> t.failed != [] && |t.results| < 3
    ensures n.Some? ==> n.value == Partial(|t.results|)
  {
    if t.failed != [] && |t.results| < 3 then Some(Partial(|t.results|)) else None
  }

  /** fetchAiRecommendations for the trimmed, non-blank prompt, with `suggest`
      standing for getAIMovieSuggestions (which never throws). */
  function Recommend(prompt: string, suggest: string -> seq<string>,
                     search: string -> Call<SearchReply>, detail: string -> Call<Movie>): (o: Outcome)
    ensures o.calls != [] && o.calls[0] == AiSuggest(prompt)
    ensures |o.movies| <= 10 && Genuine(o.movies)
    ensures o.error.None? ==> o.movies != []
  {
    var calls := [AiSuggest(prompt)];
    var titles := suggest(prompt);
    if titles == [] then
      var o := KeywordFallback(prompt, calls, NoMatchForQuery, NoMatchForQuery, search, detail);
      assert o.calls[0] == o.calls[..|calls| + 1][0];
      o
    else FromTitles(prompt, Take(titles, 10), calls, Resolver(search, detail), search, detail)
  }

  /** After suggestions: the title loop, then its results or the keyword fallback. */
  function FromTitles(prompt: string, titles: seq<string>, calls: seq<Request>, resolve: string -> Trial,
                      search: string -> Call<SearchReply>, detail: string -> Call<Movie>): (o: Outcome)
    requires |titles| <= 10 && calls != []
    ensures o.calls != [] && o.calls[0] == calls[0]
    ensures |o.movies| <= 10 && Genuine(o.movies)
    ensures o.error.None? ==> o.movies != []
  {
    var t := Reconcile(titles, Tally([], [], calls), resolve, search, detail);
    assert t.calls[0] == calls[0];
    ResultsOrFallback(prompt, t, search, detail)
  }

  /** After the title loop: its results with the partial-results message, or, when
      none resolved, the keyword fallback on the prompt. */
  function ResultsOrFallback(prompt: string, t: Tally, search: string -> Call<SearchReply>,
                             detail: string -> Call<Movie>): (o: Outcome)
    requires |t.results| <= 10 && Genuine(t.results) && t.calls != []
    ensures o.calls != [] && o.calls[0] == t.calls[0]
    ensures |o.movies| <= 10 && Genuine(o.movies)
    ensures o.error.None? ==> o.movies != []
    ensures t.results != [] ==> o.movies == t.results
    ensures t.results == [] ==> |o.calls| > |t.calls| && o.calls[|t.calls|] == OmdbSearch(prompt)
  {
    if t.results != [] then Outcome(t.results, PartialNotice(t), t.calls)
    else
      var o := KeywordFallback(prompt, t.calls, NoneInDatabase, NothingFound, search, detail);
      assert o.calls[0] == o.calls[..|t.calls| + 1][0];
      assert o.calls[|t.calls|] == o.calls[..|t.calls| + 1][|t.calls|];
      o
  }

  /** With suggestions and some resolved, the row shows the resolved records:
      at most one per suggested title, at most ten, no id twice, in the order
      first seen, and the message follows the partial-results rule. */
  lemma ResolvedTitlesShown(prompt: string, suggest: string -> seq<string>,
                            search: string -> Call<SearchReply>, detail: string -> Call<Movie>)
    requires suggest(prompt) != []
    ensures var o := Recommend(prompt, suggest, search, detail);
      var t := Reconcile(Take(suggest(prompt), 10), Tally([], [], [AiSuggest(prompt)]), Resolver(search, detail), search, detail);
      t.results != [] ==>
        o.movies == t.results
        && |o.movies| <= Min(10, |suggest(prompt)|)
        && DistinctIds(o.movies)
        && (o.error.Some? <==> t.failed != [] && |o.movies| < 3)
  {
  }

  /** With no suggestions the prompt itself is searched right after the suggestion
      request, and any message is the "for this query" one or the catch-all. */
  lemma NoSuggestionsSearchesPrompt(prompt: string, suggest: string -> seq<string>,
                                    search: string -> Call<SearchReply>, detail: string -> Call<Movie>)
    requires suggest(prompt) == []
    ensures var o := Recommend(prompt, suggest, search, detail);
      |o.calls| >= 2 && o.calls[1] == OmdbSearch(prompt)
      && |o.movies| <= 6
      && (o.error.Some? ==> o.error.value in {NoMatchForQuery, RequestFailed})
  {
    var o := Recommend(prompt, suggest, search, detail);
    assert o.calls[..2] == [AiSuggest(prompt), OmdbSearch(prompt)];
    assert o.calls[1] == o.calls[..2][1];
  }

  /** Outcome o follows a title loop that ended in t by searching the prompt: that
      search comes right after the loop's requests, at most six movies are shown,
      "No movies found." appears exactly when the search succeeds with no hits, and
      the "in database" message only when it has hits. */
  predicate PromptSearchedAfter(prompt: string, t: Tally, o: Outcome, search: string -> Call<SearchReply>) {
    |t.calls| < |o.calls| && o.calls[..|t.calls| + 1] == t.calls + [OmdbSearch(prompt)]
    && |o.movies| <= 6
    && (o.error == Some(NothingFound) <==> search(prompt).Done? && SearchResults(search(prompt).value) == [])
    && (o.error == Some(NoneInDatabase) ==> search(prompt).Done? && SearchResults(search(prompt).value) != [])
  }

  /** When no suggested title resolves, the prompt is searched after all the
      title requests; an empty search gives the "No movies found." message and
      a search whose details all fail gives the "in database" one. */
  lemma NothingResolvedSearchesPrompt(prompt: string, suggest: string -> seq<string>,
                                      search: string -> Call<SearchReply>, detail: string -> Call<Movie>)
    requires suggest(prompt) != []
    requires Reconcile(Take(suggest(prompt), 10), Tally([], [], [AiSuggest(prompt)]), Resolver(search, detail), search, detail).results == []
    ensures PromptSearchedAfter(prompt, Reconcile(Take(suggest(prompt), 10), Tally([], [], [AiSuggest(prompt)]), Resolver(search, detail), search, detail),
                                Recommend(prompt, suggest, search, detail), search)
  {
    var t := Reconcile(Take(suggest(prompt), 10), Tally([], [], [AiSuggest(prompt)]), Resolver(search, detail), search, detail);
    RecommendAfterLoop(prompt, suggest, search, detail);
    EmptyLoopFallback(prompt, t, search, detail);
  }

  /** With suggestions, the outcome is decided by the state the title loop ends in. */
  lemma RecommendAfterLoop(prompt: string, suggest: string -> seq<string>,
                           search: string -> Call<SearchReply>, detail: string -> Call<Movie>)
    requires suggest(prompt) != []
    ensures Recommend(prompt, suggest, search, detail)
         == ResultsOrFallback(prompt, Reconcile(Take(suggest(prompt), 10), Tally([], [], [AiSuggest(prompt)]), Resolver(search, detail), search, detail), search, detail)
  {
  }

  /** A title loop that resolved nothing ends in the keyword fallback on the prompt,
      searched right after the loop's requests. */
  lemma EmptyLoopFallback(prompt: string, t: Tally, search: string -> Call<SearchReply>, detail: string -> Call<Movie>)
    requires t.results == [] && t.calls != []
    ensures PromptSearchedAfter(prompt, t, ResultsOrFallback(prompt, t, search, detail), search)
  {
    assert ResultsOrFallback(prompt, t, search, detail) == KeywordFallback(prompt, t.calls, NoneInDatabase, NothingFound, search, detail);
    PromptFallback(prompt, t.calls, search, detail);
  }

  /** The fallback after an empty title loop: the prompt search follows the title
      requests, and its two messages tell an empty search from failed details. */
  lemma PromptFallback(prompt: string, calls: seq<Request>,
                       search: string -> Call<SearchReply>, detail: string -> Call<Movie>)
    ensures var o := KeywordFallback(prompt, calls, NoneInDatabase, NothingFound, search, detail);
      o.calls[..|calls| + 1] == calls + [OmdbSearch(prompt)]
      && |o.movies| <= 6
      && (o.error == Some(NothingFound) <==> search(prompt).Done? && SearchResults(search(prompt).value) == [])
      && (o.error == Some(NoneInDatabase) ==> search(prompt).Done? && SearchResults(search(prompt).value) != [])
  {
  }

  // ---------------------------------------------------------------------
  // The loops as the code runs them
  // ---------------------------------------------------------------------

  /** The body of `for (const title of movieTitles.slice(0, 10))`. */
  method ProcessTitle(title: string, results: seq<Movie>, failed: seq<string>, calls: seq<Request>,
                      search: string -> Call<SearchReply>, detail: string -> Call<Movie>)
    returns (results': seq<Movie>, failed': seq<string>, calls': seq<Request>)
    ensures Tally(results', failed', calls') == TitleStep(title, Tally(results, failed, calls), Resolver(search, detail), search, detail)
  {
    var q := Trim(title);
    var found, lookupCalls := GetMovieByTitle(q, search, detail);
    var primary := if found.Some? && found.value.response != "False" then found else None;
    results', failed', calls' := ContinueTitle(title, results, failed, calls, primary, lookupCalls, search, detail);
  }

  /** The same body from the test of getMovieByTitle's answer on. */
  method ContinueTitle(title: string, results: seq<Movie>, failed: seq<string>, calls: seq<Request>,
                       primary: Option<Movie>, lookupCalls: seq<Request>,
                       search: string -> Call<SearchReply>, detail: string -> Call<Movie>)
    returns (results': seq<Movie>, failed': seq<string>, calls': seq<Request>)
    ensures Tally(results', failed', calls') == AfterLookup(title, Tally(results, failed, calls), primary, lookupCalls, search, detail)
  {
    results', failed' := results, failed;
    var q := Trim(title);
    calls' := calls + lookupCalls;
    if primary.Some? {
      if !HasId(results', primary.value.imdbId) {
        results' := results' + [primary.value];
      }
      return;
    }
    failed' := failed' + [title];
    calls' := calls' + [OmdbSearch(q)];
    var altReply := search(q);
    if altReply.Thrown? {
      failed' := failed' + [title];
      return;
    }
    var alt := SearchResults(altReply.value);
    if alt != [] {
      var id := alt[0].imdbId;
      calls' := calls' + [OmdbDetail(id)];
      var altDetails := detail(id);
      if altDetails.Thrown? {
        failed' := failed' + [title];
        return;
      }
      var record := MovieDetails(altDetails.value);
      if record.Some? && record.value.response != "False" {
        if !HasId(results', record.value.imdbId) {
          results' := results' + [record.value];
        }
      }
    }
  }

  /** The loop over the first ten suggested titles. */
  method ReconcileTitles(titles: seq<string>, issued: seq<Request>,
                         search: string -> Call<SearchReply>, detail: string -> Call<Movie>)
    returns (results: seq<Movie>, failed: seq<string>, calls: seq<Request>)
    ensures Tally(results, failed, calls) == Reconcile(Take(titles, 10), Tally([], [], issued), Resolver(search, detail), search, detail)
  {
    var todo := Take(titles, 10);
    results, failed, calls := [], [], issued;
    for i := 0 to |todo|
      invariant Reconcile(todo[i..], Tally(results, failed, calls), Resolver(search, detail), search, detail)
             == Reconcile(todo, Tally([], [], issued), Resolver(search, detail), search, detail)
    {
      ReconcileUnroll(todo, i, Tally(results, failed, calls), Resolver(search, detail), search, detail);
      results, failed, calls := ProcessTitle(todo[i], results, failed, calls, search, detail);
    }
  }

  /** `for (const movie of fallbackResults.slice(0, 6))`: the details loop. */
  method FetchFallbackDetails(hits: seq<Hit>, issued: seq<Request>, detail: string -> Call<Movie>)
    returns (movies: seq<Movie>, calls: seq<Request>, threw: bool)
    ensures Gathered(movies, calls, threw) == FetchAll(Take(hits, 6), Gathered([], issued, false), detail)
  {
    var todo := Take(hits, 6);
    movies, calls, threw := [], issued, false;
    var i := 0;
    while i < |todo|
      invariant 0 <= i <= |todo|
      invariant FetchAll(todo[i..], Gathered(movies, calls, false), detail)
             == FetchAll(todo, Gathered([], issued, false), detail)
    {
      assert todo[i..][0] == todo[i] && todo[i..][1..] == todo[i + 1..];
      var id := todo[i].imdbId;
      if id != "" {
        calls := calls + [OmdbDetail(id)];
        var reply := detail(id);
        if reply.Thrown? {
          threw := true;
          return;
        }
        if MovieDetails(reply.value).Some? {
          movies := movies + [reply.value];
        }
      }
      i := i + 1;
    }
  }

  /** The keyword fallback as the code runs it. */
  method SearchPrompt(prompt: string, issued: seq<Request>, noDetails: Notice, noHits: Notice,
                      search: string -> Call<SearchReply>, detail: string -> Call<Movie>)
    returns (o: Outcome)
    ensures o == KeywordFallback(prompt, issued, noDetails, noHits, search, detail)
  {
    var calls := issued + [OmdbSearch(prompt)];
    var reply := search(prompt);
    if reply.Thrown? {
      return Outcome([], Some(RequestFailed), calls);
    }
    var hits := SearchResults(reply.value);
    if hits == [] {
      return Outcome([], Some(noHits), calls);
    }
    var movies, calls', threw := FetchFallbackDetails(hits, calls, detail);
    if threw {
      return Outcome([], Some(RequestFailed), calls');
    }
    o := Outcome(movies, if movies == [] then Some(noDetails) else None, calls');
  }

  /** fetchAiRecommendations after its blank-prompt check, as the code runs it. */
  method FetchRecommendations(prompt: string, suggest: string -> seq<string>,
                              search: string -> Call<SearchReply>, detail: string -> Call<Movie>)
    returns (o: Outcome)
    ensures o == Recommend(prompt, suggest, search, detail)
  {
    var calls := [AiSuggest(prompt)];
    var titles := suggest(prompt);
    if titles == [] {
      o := SearchPrompt(prompt, calls, NoMatchForQuery, NoMatchForQuery, search, detail);
      return;
    }
    var results, failed, calls' := ReconcileTitles(titles, calls, search, detail);
    if |results| > 0 {
      var error := if |failed| > 0 && |results| < 3 then Some(Partial(|results|)) else None;
      o := Outcome(results, error, calls');
    } else {
      o := SearchPrompt(prompt, calls', NoneInDatabase, NothingFound, search, detail);
    }
  }
}
