/** The Home page's own state (Home.jsx): the AI recommendation row with its
    prompt and input, and the pending-movie login gate. Navigation is recorded
    as the list of paths visited; requests to OMDb and Gemini as the request log. */
module Home {
  import opened Util
  import opened Strings
  import opened Net
  import opened Omdb
  import opened Auth
  import opened Recommendations

  /** The `aiRow` state: its records, whether it is loading, and its error message. */
  datatype AiRow = AiRow(movies: seq<Movie>, loading: bool, error: Option<Notice>)

  /** `/movie/${imdbID}` */
  function MoviePath(imdbId: string): (path: string)
    ensures |path| == 7 + |imdbId| && path[7..] == imdbId
  {
    "/movie/" + imdbId
  }

  class HomePage {
    /** The auth store the page subscribes to. */
    const auth: AuthStore
    var aiRow: AiRow
    var aiPrompt: string
    var aiInput: string
    var loginModalOpen: bool
    /** The id of the movie whose click waits for a login. */
    var pendingMovie: Option<string>
    var visited: seq<string>
    var requests: seq<Request>

    /** A movie waits only while the login modal is open, the AI row holds at
        most ten genuine records once no request is in flight, and the auth
        store keeps its flag and its user together. */
    ghost predicate Valid()
      reads this, auth
    {
      (pendingMovie.Some? ==> loginModalOpen)
      && !aiRow.loading && |aiRow.movies| <= 10 && Genuine(aiRow.movies)
      && auth.Valid()
    }

    /** The state on first render. */
    constructor (auth: AuthStore)
      requires auth.Valid()
      ensures Valid()
      ensures this.auth == auth
      ensures aiRow == AiRow([], false, None) && aiPrompt == [] && aiInput == []
      ensures !loginModalOpen && pendingMovie == None && visited == [] && requests == []
    {
      this.auth := auth;
      aiRow := AiRow([], false, None);
      aiPrompt, aiInput := [], [];
      loginModalOpen, pendingMovie := false, None;
      visited, requests := [], [];
    }

    /** handleMovieClick and handleSearchSelect: logged out, the movie waits and the
        login modal opens, with no navigation; logged in, its page is opened. */
    method HandleMovieClick(imdbId: string)
      requires Valid()
      modifies this`pendingMovie, this`loginModalOpen, this`visited
      ensures Valid()
      ensures !auth.isLoggedIn ==>
        pendingMovie == Some(imdbId) && loginModalOpen && visited == old(visited)
      ensures auth.isLoggedIn ==>
        visited == old(visited) + [MoviePath(imdbId)]
        && pendingMovie == old(pendingMovie) && loginModalOpen == old(loginModalOpen)
    {
      if !auth.isLoggedIn {
        pendingMovie := Some(imdbId);
        loginModalOpen := true;
        return;
      }
      visited := visited + [MoviePath(imdbId)];
    }

    /** handleLoginSuccess: the waiting movie's page is opened and the wait cleared;
        the modal closes. */
    method HandleLoginSuccess()
      requires Valid()
      modifies this`pendingMovie, this`loginModalOpen, this`visited
      ensures Valid()
      ensures old(pendingMovie).Some? ==> visited == old(visited) + [MoviePath(old(pendingMovie).value)]
      ensures old(pendingMovie).None? ==> visited == old(visited)
      ensures pendingMovie == None && !loginModalOpen
    {
      if pendingMovie.Some? {
        visited := visited + [MoviePath(pendingMovie.value)];
        pendingMovie := None;
      }
      loginModalOpen := false;
    }

    /** The modal's onClose: it closes and the waiting movie is dropped. */
    method CloseLoginModal()
      requires Valid()
      modifies this`pendingMovie, this`loginModalOpen
      ensures Valid()
      ensures pendingMovie == None && !loginModalOpen
    {
      loginModalOpen := false;
      pendingMovie := None;
    }

    /** The navbar's onOpenLogin. */
    method OpenLoginModal()
      requires Valid()
      modifies this`loginModalOpen
      ensures Valid()
      ensures loginModalOpen
    {
      loginModalOpen := true;
    }

    /** The login form's submit: a blank phone or an empty password does nothing;
        otherwise the store logs in with the trimmed phone, then onSuccess and
        onClose run. */
    method SubmitLogin(phone: string, password: string)
      requires Valid()
      modifies auth, this`pendingMovie, this`loginModalOpen, this`visited
      ensures Valid()
      ensures IsBlank(phone) || password == [] ==>
        unchanged(auth) && pendingMovie == old(pendingMovie)
        && loginModalOpen == old(loginModalOpen) && visited == old(visited)
      ensures !IsBlank(phone) && password != [] ==>
        auth.isLoggedIn && auth.user == Some(User(Trim(phone)))
        && pendingMovie == None && !loginModalOpen
        && visited == old(visited) + (if old(pendingMovie).Some? then [MoviePath(old(pendingMovie).value)] else [])
    {
      if Trim(phone) == [] || password == [] {
        return;
      }
      auth.Login(Trim(phone), password);
      HandleLoginSuccess();
      CloseLoginModal();
    }

    /** fetchAiRecommendations: a blank input changes nothing and asks nothing;
        otherwise the trimmed input becomes the prompt, the row ends with the
        outcome of the recommendation flow, and the input is cleared. */
    method FetchAiRecommendations(suggest: string -> seq<string>,
                                  search: string -> Call<SearchReply>, detail: string -> Call<Movie>)
      requires Valid()
      modifies this`aiRow, this`aiPrompt, this`aiInput, this`requests
      ensures Valid()
      ensures IsBlank(old(aiInput)) ==>
        aiRow == old(aiRow) && aiPrompt == old(aiPrompt) && aiInput == old(aiInput) && requests == old(requests)
      ensures !IsBlank(old(aiInput)) ==>
        var o := Recommend(Trim(old(aiInput)), suggest, search, detail);
        aiPrompt == Trim(old(aiInput)) && aiInput == []
        && aiRow == AiRow(o.movies, false, o.error)
        && requests == old(requests) + o.calls
    {
      if Trim(aiInput) == [] {
        return;
      }
      ShowRecommendations(Trim(aiInput), suggest, search, detail);
      aiInput := [];
    }

    /** The part of fetchAiRecommendations after the blank check, for the trimmed prompt. */
    method ShowRecommendations(prompt: string, suggest: string -> seq<string>,
                               search: string -> Call<SearchReply>, detail: string -> Call<Movie>)
      requires Valid()
      modifies this`aiRow, this`aiPrompt, this`requests
      ensures Valid()
      ensures var o := Recommend(prompt, suggest, search, detail);
        aiPrompt == prompt && aiRow == AiRow(o.movies, false, o.error)
        && requests == old(requests) + o.calls
    {
      aiRow := AiRow([], true, None);
      aiPrompt := prompt;
      var o := FetchRecommendations(prompt, suggest, search, detail);
      aiRow := AiRow(o.movies, false, o.error);
      requests := requests + o.calls;
    }
  }
}
