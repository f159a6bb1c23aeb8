/**
 * The `News` component: the outcome of its one fetch, the view it gates on
 * `loading` and `error`, and the state it keeps between renders.
 */
module News {
  import opened Wrappers
  import opened Articles
  import opened Paging
  import opened Display
  import opened JsBuiltins

  /** How the request made by `fetchNews` ends, once the body is parsed. */
  datatype FetchResult =
    | NewsBody(news: seq<Article>)  // `data && data.news` holds
    | NoNewsBody                    // the body parsed, without a `news` list
    | Thrown(message: string)       // the request or the parse threw `err`

  /** The message stored when the body carries no news. */
  const NoNewsMessage: string := "No news data found"

  /** What the component is showing: the spinner, an error, or the feed. */
  datatype ViewState = Loading | Error(message: string) | Ready(articles: seq<Article>)

  /** `error` is truthy: set, and not the empty string. */
  predicate ErrorShown(error: Option<string>) {
    error.Some? && error.value != ""
  }

  /** The two early returns: the spinner while loading, then the error line
      while `error` is truthy, and otherwise the feed. */
  function Gate(loading: bool, error: Option<string>, articles: seq<Article>): (v: ViewState)
    ensures v == Loading <==> loading
    ensures v.Error? <==> !loading && ErrorShown(error)
    ensures v.Error? ==> Some(v.message) == error
    ensures v.Ready? ==> v.articles == articles
  {
    if loading then Loading
    else if ErrorShown(error) then Error(error.value)
    else Ready(articles)
  }

  /** The view once the fetch has settled, from the state the component
      mounts with. */
  function Settle(r: FetchResult): (v: ViewState)
    ensures v != Loading
    ensures r.NewsBody? ==> v == Ready(FilterWithImage(r.news))
    ensures r.NoNewsBody? ==> v == Error(NoNewsMessage)
    ensures r.Thrown? && r.message != "" ==> v == Error(r.message)
    ensures r.Thrown? && r.message == "" ==> v == Ready([])
  {
    match r
    case NewsBody(news) => Gate(false, None, FilterWithImage(news))
    case NoNewsBody => Gate(false, Some(NoNewsMessage), [])
    case Thrown(m) => Gate(false, Some(m), [])
  }

  /** A feed that is shown only ever holds articles with an image. */
  lemma SettledFeedHasImages(r: FetchResult)
    ensures Settle(r).Ready? ==> forall i :: 0 <= i < |Settle(r).articles| ==> HasImage(Settle(r).articles[i])
  {
  }

  /** An error thrown with a message yields that message on screen. */
  lemma TransportErrorShown()
    ensures Settle(Thrown("Failed to fetch")) == Error("Failed to fetch")
  {
  }

  /** What one render puts on screen. */
  datatype Screen =
    | Spinner
    | ErrorLine(message: string)
    | FeedPage(cards: seq<Card>, previousShown: bool, nextShown: bool)

  /** The markup for view `v` on page `page`: a pager button is shown
      when it is not disabled. */
  function Render(v: ViewState, page: int): (s: Screen)
    ensures s == Spinner <==> v == Loading
    ensures s.ErrorLine? <==> v.Error?
    ensures s.ErrorLine? ==> s.message == v.message
    ensures s.FeedPage? <==> v.Ready?
  {
    match v
    case Loading => Spinner
    case Error(m) => ErrorLine(m)
    case Ready(a) =>
      FeedPage(Cards(PageSlice(a, page)), !PreviousDisabled(page), !NextDisabled(page, |a|))
  }

  /** In the feed, the cards are those of the current page in list order,
      and a pager button is offered exactly when its handler would move. */
  lemma RenderFeedPage(a: seq<Article>, page: int)
    requires page >= 1
    ensures Render(Ready(a), page).FeedPage?
    ensures |Render(Ready(a), page).cards| <= ItemsPerPage
    ensures |Render(Ready(a), page).cards| == Min(page * ItemsPerPage, |a|) - Min((page - 1) * ItemsPerPage, |a|)
    ensures forall i :: 0 <= i < |Render(Ready(a), page).cards| ==>
      Render(Ready(a), page).cards[i] == CardOf(a[(page - 1) * ItemsPerPage + i])
    ensures Render(Ready(a), page).previousShown <==> PreviousPage(page) != page
    ensures Render(Ready(a), page).nextShown <==> NextPage(page, |a|) != page
  {
    PageWindow(a, page);
    DisabledIffNoop(page, |a|);
  }

  /** The state `News` keeps in its `useState` hooks. */
  class NewsFeed {
    var articles: seq<Article>
    var loading: bool
    var error: Option<string>
    var currentPage: int

    /** The page stays in range, and while loading nothing else has
        happened yet. */
    ghost predicate Valid()
      reads this
    {
      && PageInRange(currentPage, |articles|)
      && (loading ==> articles == [] && error == None && currentPage == 1)
    }

    /** The hooks' initial values. */
    constructor ()
      ensures Valid()
      ensures articles == [] && loading && error == None && currentPage == 1
      ensures View() == Loading
    {
      articles, loading, error, currentPage := [], true, None, 1;
    }

    function View(): ViewState
      reads this
    {
      Gate(loading, error, articles)
    }

    function Screen(): Screen
      reads this
    {
      Render(View(), currentPage)
    }

    /** `currentArticles`: the window of the current page. */
    function CurrentArticles(): (r: seq<Article>)
      reads this
      requires Valid()
      ensures |r| <= ItemsPerPage
      ensures r == articles[Min((currentPage - 1) * ItemsPerPage, |articles|)..Min(currentPage * ItemsPerPage, |articles|)]
      ensures r != [] ==> (currentPage - 1) * ItemsPerPage + |r| <= |articles|
      ensures forall i :: 0 <= i < |r| ==> r[i] == articles[(currentPage - 1) * ItemsPerPage + i]
      ensures articles != [] ==> r != []
    {
      PageWindow(articles, currentPage);
      PageSlice(articles, currentPage)
    }

    /** The body of `fetchNews` after the request settles: store the
        filtered list or the error, and clear `loading` in every case. */
    method FetchSettled(r: FetchResult)
      requires Valid() && loading
      modifies this
      ensures Valid() && !loading && currentPage == 1
      ensures articles == (if r.NewsBody? then FilterWithImage(r.news) else [])
      ensures error == match r
        case NewsBody(_) => None
        case NoNewsBody => Some(NoNewsMessage)
        case Thrown(m) => Some(m)
      ensures View() == Settle(r)
    {
      match r {
        case NewsBody(news) =>
          articles := FilterWithImage(news);
        case NoNewsBody =>
          error := Some(NoNewsMessage);
        case Thrown(m) =>
          error := Some(m);
      }
      loading := false;
    }

    /** `handleNextPage`. */
    method HandleNextPage()
      requires Valid()
      modifies this`currentPage
      ensures Valid()
      ensures currentPage == NextPage(old(currentPage), |articles|)
    {
      if currentPage < TotalPages(|articles|) {
        currentPage := currentPage + 1;
      }
    }

    /** `handlePreviousPage`. */
    method HandlePreviousPage()
      requires Valid()
      modifies this`currentPage
      ensures Valid()
      ensures currentPage == PreviousPage(old(currentPage))
    {
      if currentPage > 1 {
        currentPage := currentPage - 1;
      }
    }
  }
}
