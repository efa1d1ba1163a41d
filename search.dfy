/** The Search screen: a free-text, case-insensitive filter over the titles and
    descriptions of the fetched posts, and which of its states the screen renders. */
module Search {
  import opened Posts
  import opened Text

  /** `post.title.toLowerCase().includes(q) || (post.description && post.description.toLowerCase().includes(q))`
      with `q` the lower-cased query; a missing or empty description is falsy. The empty
      query matches every post; a query longer than the title and the description matches none. */
  predicate Matches(p: Post, query: string)
    ensures query == "" ==> Matches(p, query)
    ensures Matches(p, query) ==> |query| <= |p.title| || (p.description.Some? && |query| <= |p.description.value|)
  {
    var needle := ToLower(query);
    Includes(ToLower(p.title), needle) ||
    (p.description.Some? && p.description.value != "" && Includes(ToLower(p.description.value), needle))
  }

  /** The posts listed for `query`. A query that trims to "" lists everything; any other
      query is matched as typed, untrimmed. */
  function SearchFilter(posts: seq<Post>, query: string): (r: seq<Post>)
    ensures |r| <= |posts|
    ensures Trim(query) != "" ==> forall k :: 0 <= k < |r| ==> Matches(r[k], query)
  {
    if Trim(query) == "" then posts else Filter(posts, (p: Post) => Matches(p, query))
  }

  /** An empty or all-white-space query lists every post, in order. */
  lemma BlankQueryListsAll(posts: seq<Post>, query: string)
    requires forall i :: 0 <= i < |query| ==> IsSpace(query[i])
    ensures SearchFilter(posts, query) == posts
  {
    TrimEmptyIff(query);
  }

  /** Any other query lists, in their original order, exactly the posts it matches,
      each as often as it was fetched. */
  lemma SearchExact(posts: seq<Post>, query: string, i: int, p: Post)
    requires 0 <= i < |query| && !IsSpace(query[i])
    ensures IsSubsequence(SearchFilter(posts, query), posts)
    ensures multiset(SearchFilter(posts, query))[p] == if Matches(p, query) then multiset(posts)[p] else 0
    ensures p in SearchFilter(posts, query) <==> p in posts && Matches(p, query)
  {
    TrimEmptyIff(query);
    FilterIsSubsequence(posts, (q: Post) => Matches(q, query));
    FilterMultiplicity(posts, (q: Post) => Matches(q, query), p);
  }

  /** Whatever the query, the list is a subsequence of the fetched posts. */
  lemma SearchIsSubsequence(posts: seq<Post>, query: string)
    ensures IsSubsequence(SearchFilter(posts, query), posts)
    ensures forall p :: p in SearchFilter(posts, query) ==> p in posts
  {
    if Trim(query) == "" {
      FilterKeepsAll(posts, (q: Post) => true);
      FilterIsSubsequence(posts, (q: Post) => true);
    } else {
      FilterIsSubsequence(posts, (q: Post) => Matches(q, query));
    }
    SubsequenceIsContained(SearchFilter(posts, query), posts);
  }

  /** Lower-casing cannot turn a blank query into a non-blank one, or back. */
  lemma BlankIgnoresCase(q1: string, q2: string)
    requires ToLower(q1) == ToLower(q2)
    ensures Trim(q1) == "" <==> Trim(q2) == ""
  {
    TrimEmptyIff(q1);
    TrimEmptyIff(q2);
    forall i | 0 <= i < |q1|
      ensures IsSpace(q1[i]) <==> IsSpace(q2[i])
    {
      LowerKeepsSpace(q1[i]);
      LowerKeepsSpace(q2[i]);
      assert ToLower(q1)[i] == ToLower(q2)[i];
    }
  }

  /** Two queries that differ only in the case of ASCII letters list the same posts. */
  lemma SearchIgnoresCase(posts: seq<Post>, q1: string, q2: string)
    requires ToLower(q1) == ToLower(q2)
    ensures SearchFilter(posts, q1) == SearchFilter(posts, q2)
  {
    BlankIgnoresCase(q1, q2);
    FilterCongruence(posts, (p: Post) => Matches(p, q1), (p: Post) => Matches(p, q2));
  }

  /** In particular, typing the query in capitals changes nothing. */
  lemma UpperCaseQuerySameResult(posts: seq<Post>, query: string)
    ensures SearchFilter(posts, ToUpper(query)) == SearchFilter(posts, query)
  {
    LowerOfUpper(query);
    SearchIgnoresCase(posts, ToUpper(query), query);
  }

  /** A post without a (non-empty) description can only be found through its title. */
  lemma NoDescriptionMatchesTitleOnly(p: Post, query: string)
    requires p.description == None || p.description == Some("")
    ensures Matches(p, query) <==> Includes(ToLower(p.title), ToLower(query))
  {
  }

  /** The surrounding spaces of a non-blank query are part of the needle: " news" does
      not find a post titled "news" (while "news" does, by `TrimmedQueryExample`). */
  lemma UntrimmedQueryExample()
    ensures SearchFilter([Post("1", "news", None, None)], " news") == []
  {
    var p := Post("1", "news", None, None);
    NotBlank(" news", 1);
    assert !Matches(p, " news");
    FilterKeepsNone([p], (q: Post) => Matches(q, " news"));
  }

  /** The query "news" finds the post titled "news". */
  lemma TrimmedQueryExample()
    ensures SearchFilter([Post("1", "news", None, None)], "news") == [Post("1", "news", None, None)]
  {
    var p := Post("1", "news", None, None);
    NotBlank("news", 0);
    LowerOfLowerCase("news");
    assert StartsWith("news", "news");
    FilterKeepsAll([p], (q: Post) => Matches(q, "news"));
  }

  /** A query holding a non-white-space character is not blank. */
  lemma NotBlank(query: string, i: int)
    requires 0 <= i < |query| && !IsSpace(query[i])
    ensures Trim(query) != ""
  {
    TrimEmptyIff(query);
  }

  /** The state the screen keeps. */
  datatype SearchState = SearchState(
    query: string, posts: seq<Post>, filteredPosts: seq<Post>, loading: bool, error: Option<string>)

  /** Mounting: empty query, nothing fetched, spinner showing. */
  const Initial: SearchState := SearchState("", [], [], true, None)

  /** The listed posts are the search filter of the fetched posts for the current query. */
  predicate Consistent(s: SearchState)
  {
    s.filteredPosts == SearchFilter(s.posts, s.query)
  }

  /** The mount state already satisfies the filter effect, so its first run changes nothing. */
  lemma InitialConsistent()
    ensures Consistent(Initial) && Refilter(Initial) == Initial
  {
  }

  /** The fetch on mount settles: a response becomes both `posts` and `filteredPosts`;
      a failure records the error. Either way loading ends. */
  function ReceiveFetch(s: SearchState, outcome: FetchOutcome): (t: SearchState)
    ensures !t.loading && t.query == s.query
    ensures outcome.Fetched? ==> t.posts == outcome.posts && t.filteredPosts == outcome.posts && t.error == s.error
    ensures outcome.FetchFailed? ==> t.error == Some(LoadError) && t.posts == s.posts && t.filteredPosts == s.filteredPosts
  {
    match outcome
    case Fetched(r) => s.(posts := r, filteredPosts := r, loading := false)
    case FetchFailed => s.(error := Some(LoadError), loading := false)
  }

  /** The effect that runs whenever the query or the posts change. */
  function Refilter(s: SearchState): (t: SearchState)
    ensures Consistent(t)
    ensures t.query == s.query && t.posts == s.posts && t.loading == s.loading && t.error == s.error
  {
    s.(filteredPosts := SearchFilter(s.posts, s.query))
  }

  /** Right after a successful fetch with a blank query (the only query there is, since the
      text field is not shown while loading) the list is already consistent, so the effect
      that follows changes nothing. */
  lemma FetchAlreadyConsistent(s: SearchState, r: seq<Post>)
    requires forall i :: 0 <= i < |s.query| ==> IsSpace(s.query[i])
    ensures Consistent(ReceiveFetch(s, Fetched(r)))
    ensures Refilter(ReceiveFetch(s, Fetched(r))) == ReceiveFetch(s, Fetched(r))
  {
    BlankQueryListsAll(r, s.query);
  }

  /** Typing in the search field (shown only once loading is over without error). */
  function TypeQuery(s: SearchState, q: string): (t: SearchState)
    requires !s.loading && s.error.None?
    ensures Consistent(t) && t.query == q && t.posts == s.posts && !t.loading && t.error == s.error
  {
    Refilter(s.(query := q))
  }

  /** What the screen renders. */
  datatype SearchView = Spinner | ErrorText(message: string) | NoResults | Results(posts: seq<Post>)

  /** The spinner while loading, then the error, then "No results found." for an empty
      list, and the list of results otherwise. */
  function Render(s: SearchState): (v: SearchView)
    ensures s.loading <==> v == Spinner
    ensures v.ErrorText? <==> !s.loading && s.error.Some?
    ensures v.ErrorText? ==> v.message == s.error.value
    ensures v == NoResults <==> !s.loading && s.error.None? && s.filteredPosts == []
    ensures v.Results? ==> v.posts == s.filteredPosts && s.filteredPosts != []
  {
    if s.loading then Spinner
    else if s.error.Some? then ErrorText(s.error.value)
    else if |s.filteredPosts| == 0 then NoResults
    else Results(s.filteredPosts)
  }
}
