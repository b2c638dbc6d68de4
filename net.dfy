/** What the services see of the network: each HTTP call either resolves
    with a reply body or rejects (an axios error), and every request that
    leaves the page is recorded, in order, in a request log. */
module Net {

  /** The settlement of one awaited call: a reply, or a thrown error. */
  datatype Call<+T> = Done(value: T) | Thrown

  /** One outgoing request. */
  datatype Request =
    | OmdbSearch(query: string)   // GET ?s=query
    | OmdbDetail(imdbId: string)  // GET ?i=imdbId
    | AiSuggest(prompt: string)   // one getAIMovieSuggestions(prompt)
}
