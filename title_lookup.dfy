/** getMovieByTitle: a free-text title resolved to at most one catalog record.
    The verbatim search comes first; only when it has no hits are the title
    variants searched, one after another, until one of them yields a record.
    Any thrown request ends the lookup with null. */
module TitleLookup {
  import opened Util
  import opened Strings
  import opened Net
  import opened Omdb

  /** Where a lookup stands: nothing yet, a record, or a thrown request (caught, so null). */
  datatype Status = Missed | Found(movie: Movie) | Threw

  /** The status of a lookup together with every request it has issued, in order. */
  datatype Trial = Trial(status: Status, calls: seq<Request>)

  /** What getMovieByTitle returns for a finished trial. */
  function Result(t: Trial): (r: Option<Movie>)
    ensures r.Some? <==> t.status.Found?
    ensures r.Some? ==> r.value == t.status.movie
  {
    if t.status.Found? then Some(t.status.movie) else None
  }

  /** A found record is the reply to the last request, which fetched its details,
      and that reply does not say Response "False". */
  predicate FromLastFetch(t: Trial, detail: string -> Call<Movie>) {
    t.status.Found? ==>
      t.calls != [] && t.calls[|t.calls| - 1].OmdbDetail?
      && detail(t.calls[|t.calls| - 1].imdbId) == Done(t.status.movie)
      && t.status.movie.response != "False"
  }

  /** The search queries among the requests, in order. */
  function Searched(calls: seq<Request>): (qs: seq<string>)
    ensures |qs| <= |calls|
  {
    if calls == [] then []
    else (if calls[0].OmdbSearch? then [calls[0].query] else []) + Searched(calls[1..])
  }

  lemma {:induction false} SearchedAppend(a: seq<Request>, b: seq<Request>)
    ensures Searched(a + b) == Searched(a) + Searched(b)
  {
    if a == [] {
      assert a + b == b;
    } else {
      assert (a + b)[0] == a[0];
      assert (a + b)[1..] == a[1..] + b;
      SearchedAppend(a[1..], b);
    }
  }

  /** `getMovieById(id)` followed by the `fullDetails.Response !== 'False'` test. */
  function FetchDetail(id: string, detail: string -> Call<Movie>): (t: Trial)
    ensures t.calls == [OmdbDetail(id)]
    ensures t.status.Threw? <==> detail(id).Thrown?
    ensures t.status.Found? <==> detail(id).Done? && detail(id).value.response != "False"
    ensures FromLastFetch(t, detail)
  {
    match detail(id)
    case Thrown => Trial(Threw, [OmdbDetail(id)])
    case Done(reply) =>
      match MovieDetails(reply)
      case Some(m) => Trial(Found(m), [OmdbDetail(id)])
      case None => Trial(Missed, [OmdbDetail(id)])
  }

  /** One pass of the variant loop: search v; when there are hits, fetch the
      details of the first hit only, and only when it has an id. */
  function TryVariant(v: string, search: string -> Call<SearchReply>, detail: string -> Call<Movie>): (t: Trial)
    ensures 1 <= |t.calls| <= 2 && t.calls[0] == OmdbSearch(v)
    ensures |t.calls| == 2 <==>
      search(v).Done? && SearchResults(search(v).value) != [] && SearchResults(search(v).value)[0].imdbId != ""
    ensures |t.calls| == 2 ==> t.calls[1] == OmdbDetail(SearchResults(search(v).value)[0].imdbId)
    ensures t.status.Threw? <==> search(v).Thrown? || (|t.calls| == 2 && detail(t.calls[1].imdbId).Thrown?)
    ensures t.status.Found? <==>
      (|t.calls| == 2 && detail(t.calls[1].imdbId).Done? && detail(t.calls[1].imdbId).value.response != "False")
    ensures FromLastFetch(t, detail)
  {
    match search(v)
    case Thrown => Trial(Threw, [OmdbSearch(v)])
    case Done(reply) =>
      var hits := SearchResults(reply);
      if hits == [] || hits[0].imdbId == "" then Trial(Missed, [OmdbSearch(v)])
      else
        var f := FetchDetail(hits[0].imdbId, detail);
        Trial(f.status, [OmdbSearch(v)] + f.calls)
  }

  /** The variant loop from state t: variants are tried in order while nothing
      has been found and nothing has thrown. */
  function TryVariants(vs: seq<string>, t: Trial, search: string -> Call<SearchReply>, detail: string -> Call<Movie>): (r: Trial)
    ensures IsPrefix(t.calls, r.calls)
    ensures t.calls != [] ==> r.calls[0] == t.calls[0]
    ensures |r.calls| <= |t.calls| + 2 * |vs|
    ensures !t.status.Missed? ==> r == t
    ensures FromLastFetch(t, detail) ==> FromLastFetch(r, detail)
    decreases |vs|
  {
    if vs == [] || !t.status.Missed? then t
    else
      var u := TryVariant(vs[0], search, detail);
      TryVariants(vs[1..], Trial(u.status, t.calls + u.calls), search, detail)
  }

  /** getMovieByTitle(title), as the trial it ends in. */
  function Lookup(title: string, search: string -> Call<SearchReply>, detail: string -> Call<Movie>): (t: Trial)
    ensures t.calls == [] <==> IsBlank(title)
    ensures t.calls != [] ==> t.calls[0] == OmdbSearch(Trim(title))
    ensures |t.calls| <= 7
    ensures FromLastFetch(t, detail)
  {
    if Trim(title) == [] then Trial(Missed, [])
    else
      var clean := Trim(title);
      var first := [OmdbSearch(clean)];
      match search(clean)
      case Thrown => Trial(Threw, first)
      case Done(reply) =>
        var hits := SearchResults(reply);
        if hits == [] then TryVariants(Variations(clean), Trial(Missed, first), search, detail)
        else FetchBest(hits, clean, detail)
  }

  /** The verbatim search had hits: the ranked hit is fetched when it has an id. */
  function FetchBest(hits: seq<Hit>, clean: string, detail: string -> Call<Movie>): (t: Trial)
    requires hits != []
    ensures 1 <= |t.calls| <= 2 && t.calls[0] == OmdbSearch(clean)
    ensures |t.calls| == 2 <==> hits[BestMatch(hits, clean)].imdbId != ""
    ensures |t.calls| == 2 ==> t.calls[1] == OmdbDetail(hits[BestMatch(hits, clean)].imdbId)
    ensures t.status.Threw? <==> |t.calls| == 2 && detail(t.calls[1].imdbId).Thrown?
    ensures t.status.Found? <==>
      (|t.calls| == 2 && detail(t.calls[1].imdbId).Done? && detail(t.calls[1].imdbId).value.response != "False")
    ensures FromLastFetch(t, detail)
  {
    var first := [OmdbSearch(clean)];
    var pick := hits[BestMatch(hits, clean)];
    if pick.imdbId == "" then Trial(Missed, first)
    else
      var f := FetchDetail(pick.imdbId, detail);
      Trial(f.status, first + f.calls)
  }

  /** The variant that decides the loop: the first one whose pass finds a record or throws. */
  predicate Settles(v: string, search: string -> Call<SearchReply>, detail: string -> Call<Movie>) {
    !TryVariant(v, search, detail).status.Missed?
  }

  /** The variants a loop started with nothing found searches: all of them when
      none settles, else those up to and including the first that settles. */
  function Tried(vs: seq<string>, search: string -> Call<SearchReply>, detail: string -> Call<Movie>): (n: nat)
    ensures n <= |vs|
    ensures forall j | 0 <= j < n - 1 :: !Settles(vs[j], search, detail)
    ensures n < |vs| ==> n > 0 && Settles(vs[n - 1], search, detail)
    ensures n == |vs| && n > 0 && !Settles(vs[n - 1], search, detail) ==>
      forall j | 0 <= j < |vs| :: !Settles(vs[j], search, detail)
    decreases |vs|
  {
    if vs == [] then 0
    else if Settles(vs[0], search, detail) then 1
    else 1 + Tried(vs[1..], search, detail)
  }

  /** The loop from position i is the pass for variant i followed by the loop from i + 1. */
  lemma TryVariantsUnroll(vs: seq<string>, i: nat, calls: seq<Request>,
                          search: string -> Call<SearchReply>, detail: string -> Call<Movie>)
    requires i < |vs|
    ensures var u := TryVariant(vs[i], search, detail);
      TryVariants(vs[i..], Trial(Missed, calls), search, detail)
      == TryVariants(vs[i + 1..], Trial(u.status, calls + u.calls), search, detail)
  {
    assert vs[i..][0] == vs[i] && vs[i..][1..] == vs[i + 1..];
  }

  /** One pass searches exactly its own variant. */
  lemma OnePassSearches(v: string, search: string -> Call<SearchReply>, detail: string -> Call<Movie>)
    ensures Searched(TryVariant(v, search, detail).calls) == [v]
  {
    var c := TryVariant(v, search, detail).calls;
    if |c| == 2 {
      assert c == [c[0]] + [c[1]];
      SearchedAppend([c[0]], [c[1]]);
    } else {
      assert c == [c[0]];
    }
  }

  /** The variant loop searches exactly the variants up to the first one that
      settles, in order, and ends with that variant's status (nothing found
      when none settles). */
  lemma VariantsInOrder(vs: seq<string>, calls: seq<Request>,
                        search: string -> Call<SearchReply>, detail: string -> Call<Movie>)
    ensures var r := TryVariants(vs, Trial(Missed, calls), search, detail);
      var n := Tried(vs, search, detail);
      Searched(r.calls) == Searched(calls) + vs[..n]
      && r.status == (if n == 0 then Missed else TryVariant(vs[n - 1], search, detail).status)
  {
    VariantsSearched(vs, calls, search, detail);
    VariantsStatus(vs, calls, search, detail);
  }

  lemma {:induction false} VariantsSearched(vs: seq<string>, calls: seq<Request>,
                                            search: string -> Call<SearchReply>, detail: string -> Call<Movie>)
    ensures Searched(TryVariants(vs, Trial(Missed, calls), search, detail).calls)
      == Searched(calls) + vs[..Tried(vs, search, detail)]
    decreases |vs|
  {
    if vs != [] {
      var u := TryVariant(vs[0], search, detail);
      var r := TryVariants(vs[1..], Trial(u.status, calls + u.calls), search, detail);
      assert TryVariants(vs, Trial(Missed, calls), search, detail) == r;
      SearchedAppend(calls, u.calls);
      OnePassSearches(vs[0], search, detail);
      if Settles(vs[0], search, detail) {
        assert r == Trial(u.status, calls + u.calls);
        assert vs[..1] == [vs[0]];
      } else {
        VariantsSearched(vs[1..], calls + u.calls, search, detail);
        var n := Tried(vs[1..], search, detail);
        assert Tried(vs, search, detail) == 1 + n;
        TakeAfterHead(vs, n);
        Regroup(Searched(calls), [vs[0]], vs[1..][..n], []);
      }
    }
  }

  lemma {:induction false} VariantsStatus(vs: seq<string>, calls: seq<Request>,
                                          search: string -> Call<SearchReply>, detail: string -> Call<Movie>)
    ensures var n := Tried(vs, search, detail);
      TryVariants(vs, Trial(Missed, calls), search, detail).status
      == (if n == 0 then Missed else TryVariant(vs[n - 1], search, detail).status)
    decreases |vs|
  {
    if vs != [] {
      var u := TryVariant(vs[0], search, detail);
      var r := TryVariants(vs[1..], Trial(u.status, calls + u.calls), search, detail);
      assert TryVariants(vs, Trial(Missed, calls), search, detail) == r;
      if !Settles(vs[0], search, detail) {
        VariantsStatus(vs[1..], calls + u.calls, search, detail);
        var n := Tried(vs[1..], search, detail);
        assert Tried(vs, search, detail) == 1 + n;
        if n > 0 {
          assert vs[n] == vs[1..][n - 1];
        }
      }
    }
  }

  /** When the verbatim search has hits, no variant is searched; the ranked hit
      (exact, then partial, then first) is the only one fetched, and a failed
      fetch ends the lookup with null. */
  lemma VerbatimHitsSkipVariants(title: string, search: string -> Call<SearchReply>, detail: string -> Call<Movie>)
    requires !IsBlank(title)
    requires search(Trim(title)).Done? && SearchResults(search(Trim(title)).value) != []
    ensures var hits := SearchResults(search(Trim(title)).value);
      var pick := hits[BestMatch(hits, Trim(title))];
      var t := Lookup(title, search, detail);
      Searched(t.calls) == [Trim(title)]
      && (pick.imdbId == "" ==> t == Trial(Missed, [OmdbSearch(Trim(title))]))
      && (pick.imdbId != "" ==> t.calls == [OmdbSearch(Trim(title)), OmdbDetail(pick.imdbId)]
                                && (t.status.Found? <==> detail(pick.imdbId).Done? && detail(pick.imdbId).value.response != "False"))
  {
    var clean := Trim(title);
    var hits := SearchResults(search(clean).value);
    var pick := hits[BestMatch(hits, clean)];
    var t := Lookup(title, search, detail);
    if pick.imdbId == "" {
      assert Searched([OmdbSearch(clean)]) == [clean];
    } else {
      assert t.calls == [OmdbSearch(clean)] + [OmdbDetail(pick.imdbId)];
      SearchedAppend([OmdbSearch(clean)], [OmdbDetail(pick.imdbId)]);
    }
  }

  /** When the verbatim search has no hits, the lookup is the variant loop:
      the cleaned title, then the variants up to the first that settles. */
  lemma NoHitsTriesVariants(title: string, search: string -> Call<SearchReply>, detail: string -> Call<Movie>)
    requires !IsBlank(title)
    requires search(Trim(title)).Done? && SearchResults(search(Trim(title)).value) == []
    ensures var vs := Variations(Trim(title));
      var n := Tried(vs, search, detail);
      var t := Lookup(title, search, detail);
      Searched(t.calls) == [Trim(title)] + vs[..n]
      && t.status == (if n == 0 then Missed else TryVariant(vs[n - 1], search, detail).status)
  {
    var clean := Trim(title);
    VariantsInOrder(Variations(clean), [OmdbSearch(clean)], search, detail);
    assert Searched([OmdbSearch(clean)]) == [clean];
  }

  /** A title whose verbatim search throws gives null after that one request. */
  lemma SearchThrowGivesNull(title: string, search: string -> Call<SearchReply>, detail: string -> Call<Movie>)
    requires !IsBlank(title) && search(Trim(title)).Thrown?
    ensures Result(Lookup(title, search, detail)) == None
    ensures Lookup(title, search, detail).calls == [OmdbSearch(Trim(title))]
  {
  }

  /** getMovieByTitle, as the code runs it. */
  method GetMovieByTitle(title: string, search: string -> Call<SearchReply>, detail: string -> Call<Movie>)
    returns (movie: Option<Movie>, calls: seq<Request>)
    ensures movie == Result(Lookup(title, search, detail))
    ensures calls == Lookup(title, search, detail).calls
    ensures movie.Some? ==> movie.value.response != "False"
  {
    movie, calls := None, [];
    if Trim(title) == [] {
      return;
    }
    var clean := Trim(title);
    calls := [OmdbSearch(clean)];
    var reply := search(clean);
    if reply.Thrown? {
      return;
    }
    var hits := SearchResults(reply.value);
    if hits == [] {
      movie, calls := SearchVariants(Variations(clean), calls, search, detail);
      return;
    }
    var pick := hits[BestMatch(hits, clean)];
    if pick.imdbId != "" {
      calls := calls + [OmdbDetail(pick.imdbId)];
      var full := detail(pick.imdbId);
      if full.Done? {
        var details := MovieDetails(full.value);
        if details.Some? && details.value.response != "False" {
          movie := details;
        }
      }
    }
    assert FetchBest(hits, clean, detail) == Lookup(title, search, detail);
  }

  /** The `for (const variation of titleVariations)` loop with its early returns,
      entered with the requests issued so far. */
  method SearchVariants(variations: seq<string>, issued: seq<Request>,
                        search: string -> Call<SearchReply>, detail: string -> Call<Movie>)
    returns (movie: Option<Movie>, calls: seq<Request>)
    ensures movie == Result(TryVariants(variations, Trial(Missed, issued), search, detail))
    ensures calls == TryVariants(variations, Trial(Missed, issued), search, detail).calls
  {
    movie, calls := None, issued;
    var i := 0;
    while i < |variations|
      invariant 0 <= i <= |variations|
      invariant TryVariants(variations[i..], Trial(Missed, calls), search, detail)
             == TryVariants(variations, Trial(Missed, issued), search, detail)
    {
      TryVariantsUnroll(variations, i, calls, search, detail);
      var found, passCalls, settled := SearchVariant(variations[i], search, detail);
      calls := calls + passCalls;
      if settled {
        movie := found;
        return;
      }
      i := i + 1;
    }
  }

  /** One pass of that loop: whether it settles the lookup (a record was found
      or a request threw), the record, and the requests of the pass. */
  method SearchVariant(v: string, search: string -> Call<SearchReply>, detail: string -> Call<Movie>)
    returns (movie: Option<Movie>, calls: seq<Request>, settled: bool)
    ensures settled <==> Settles(v, search, detail)
    ensures movie == Result(TryVariant(v, search, detail))
    ensures calls == TryVariant(v, search, detail).calls
  {
    movie, calls, settled := None, [OmdbSearch(v)], false;
    var alt := search(v);
    if alt.Thrown? {
      settled := true;
      return;
    }
    var altHits := SearchResults(alt.value);
    if altHits != [] && altHits[0].imdbId != "" {
      var id := altHits[0].imdbId;
      calls := calls + [OmdbDetail(id)];
      var full := detail(id);
      if full.Thrown? {
        settled := true;
        return;
      }
      var details := MovieDetails(full.value);
      if details.Some? && details.value.response != "False" {
        movie, settled := details, true;
      }
    }
  }
}
