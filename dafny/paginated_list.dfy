/**
 * The paginated snippet list hook: the listing of the current page, its
 * pagination info, the loading and error flags, the current page number and
 * the flag that keeps the first page from being requested twice.
 *
 * The two page calls are not modelled: a method that starts a load returns the
 * request it would send, and the awaited outcome is handed to `FinishLoad`
 * later. A hook instance is modelled as one object whose fields are the state
 * cells. A React commit runs the effects whose dependencies changed in
 * declaration order, and each setter call is applied in turn.
 */
module PaginatedList {
  import opened Wrappers
  import opened Types

  const DefaultPageSize: int := 20

  /** The message shown when the failed call threw something that is not an `Error`. */
  const LoadFailedMessage: string := "加载数据失败"

  /** The two page calls: all public snippets, or the signed-in user's own. */
  datatype PagesApi = PublicPages | MyPages

  /** A page call as the hook issues it. */
  datatype PageRequest = PageRequest(api: PagesApi, page: int, pageSize: int)

  /** The awaited outcome of a page call. */
  datatype FetchResult = Fetched(response: PageResponse) | Threw(thrown: Thrown)

  /** The endpoint `"public"` selects the public listing; every other value the user's own. */
  function PagesCall(endpoint: string): (api: PagesApi)
    ensures api == PublicPages <==> endpoint == "public"
    ensures api == MyPages <==> endpoint != "public"
  {
    if endpoint == "public" then PublicPages else MyPages
  }

  /** The error text stored after a failed call. */
  function ErrorMessage(thrown: Thrown): (message: string)
    ensures thrown.ErrorValue? ==> message == thrown.message
    ensures thrown.OtherValue? ==> message == LoadFailedMessage
  {
    match thrown
    case ErrorValue(m) => m
    case OtherValue => LoadFailedMessage
  }

  class PaginatedTresses {
    // The hook's options.
    var endpoint: string
    var pageSize: int
    var autoLoad: bool
    // The hook's state cells.
    var tresses: seq<TreePreview>
    var pagination: Option<PaginationInfo>
    var loading: bool
    var error: Option<string>
    var currentPage: int
    var hasLoaded: bool

    /** The current page is always a valid page number. */
    ghost predicate Valid()
      reads this
    {
      currentPage >= 1
    }

    /** First render: every state cell at its initial value; no effect has run yet. */
    constructor (endpointOption: string, pageSizeOption: Option<int>, autoLoadOption: Option<bool>)
      ensures Valid()
      ensures endpoint == endpointOption
      ensures pageSize == pageSizeOption.GetOr(DefaultPageSize)
      ensures autoLoad == autoLoadOption.GetOr(true)
      ensures tresses == [] && pagination == None && !loading && error == None
      ensures currentPage == 1 && !hasLoaded
    {
      endpoint := endpointOption;
      pageSize := pageSizeOption.GetOr(DefaultPageSize);
      autoLoad := autoLoadOption.GetOr(true);
      tresses := [];
      pagination := None;
      loading := false;
      error := None;
      currentPage := 1;
      hasLoaded := false;
    }

    /** The part of `loadPage` before the await: below page 1 nothing happens. */
    method BeginLoad(page: int) returns (request: Option<PageRequest>)
      requires Valid()
      modifies this`loading, this`error
      ensures Valid()
      ensures page < 1 ==> request == None && loading == old(loading) && error == old(error)
      ensures page >= 1 ==> request == Some(PageRequest(PagesCall(endpoint), page, pageSize))
      ensures page >= 1 ==> loading && error == None
    {
      if page < 1 {
        return None;
      }
      loading := true;
      error := None;
      request := Some(PageRequest(PagesCall(endpoint), page, pageSize));
    }

    /**
     * The part after the await. A page replaces the listing and becomes the
     * current page; a failure records its message and keeps the listing.
     * Loading ends either way.
     */
    method FinishLoad(page: int, result: FetchResult)
      requires Valid() && page >= 1
      modifies this`tresses, this`pagination, this`currentPage, this`error, this`loading
      ensures Valid()
      ensures !loading
      ensures result.Fetched? ==> (tresses == result.response.items
         && pagination == Some(result.response.pagination) && currentPage == page
         && error == old(error))
      ensures result.Threw? ==> (error == Some(ErrorMessage(result.thrown))
         && tresses == old(tresses) && pagination == old(pagination) && currentPage == old(currentPage))
    {
      match result {
        case Fetched(response) =>
          tresses := response.items;
          pagination := Some(response.pagination);
          currentPage := page;
        case Threw(thrown) =>
          error := Some(ErrorMessage(thrown));
      }
      loading := false;
    }

    /** `loadPage` run to completion with the given outcome. */
    method LoadPage(page: int, result: FetchResult) returns (request: Option<PageRequest>)
      requires Valid()
      modifies this`tresses, this`pagination, this`currentPage, this`error, this`loading
      ensures Valid()
      ensures page < 1 ==> request == None && unchanged(this)
      ensures page >= 1 ==> request == Some(PageRequest(PagesCall(endpoint), page, pageSize)) && !loading
      ensures page >= 1 && result.Fetched? ==> (tresses == result.response.items
         && pagination == Some(result.response.pagination) && currentPage == page && error == None)
      ensures page >= 1 && result.Threw? ==> (error == Some(ErrorMessage(result.thrown))
         && tresses == old(tresses) && pagination == old(pagination) && currentPage == old(currentPage))
    {
      request := BeginLoad(page);
      if request.Some? {
        FinishLoad(page, result);
      }
    }

    /** `refresh` reloads the current page. */
    method Refresh(result: FetchResult) returns (request: Option<PageRequest>)
      requires Valid()
      modifies this`tresses, this`pagination, this`currentPage, this`error, this`loading
      ensures Valid()
      ensures request == Some(PageRequest(PagesCall(endpoint), old(currentPage), pageSize)) && !loading
      ensures result.Fetched? ==> (tresses == result.response.items
         && pagination == Some(result.response.pagination) && currentPage == old(currentPage) && error == None)
      ensures result.Threw? ==> (error == Some(ErrorMessage(result.thrown))
         && tresses == old(tresses) && pagination == old(pagination) && currentPage == old(currentPage))
    {
      request := LoadPage(currentPage, result);
    }

    /**
     * The auto-load effect: when auto-loading and not yet loaded, mark the list
     * loaded and start loading page 1. Its completion is `FinishLoad(1, _)`.
     */
    method AutoLoadEffect() returns (request: Option<PageRequest>)
      requires Valid()
      modifies this`currentPage, this`hasLoaded, this`loading, this`error
      ensures Valid()
      ensures !(old(autoLoad) && !old(hasLoaded)) ==> request == None && unchanged(this)
      ensures old(autoLoad) && !old(hasLoaded) ==> (request == Some(PageRequest(PagesCall(endpoint), 1, pageSize))
         && currentPage == 1 && hasLoaded && loading && error == None)
    {
      request := None;
      if autoLoad && !hasLoaded {
        currentPage := 1;
        hasLoaded := true;
        request := BeginLoad(1);
      }
    }

    /** The reset effect: back to an empty listing on page 1, not yet loaded. */
    method ResetEffect()
      requires Valid()
      modifies this`hasLoaded, this`tresses, this`pagination, this`currentPage
      ensures Valid()
      ensures !hasLoaded && tresses == [] && pagination == None && currentPage == 1
    {
      hasLoaded := false;
      tresses := [];
      pagination := None;
      currentPage := 1;
    }

    /**
     * The commit after the first render: both effects run, auto-load first.
     * The reset clears the flag the auto-load has just set, so it ends false,
     * while the first page is still requested exactly once.
     */
    method Mount() returns (request: Option<PageRequest>)
      requires Valid()
      modifies this`tresses, this`pagination, this`currentPage, this`hasLoaded, this`loading, this`error
      ensures Valid()
      ensures !hasLoaded && tresses == [] && pagination == None && currentPage == 1
      ensures old(autoLoad) && !old(hasLoaded) ==> (request == Some(PageRequest(PagesCall(endpoint), 1, pageSize))
         && loading && error == None)
      ensures !(old(autoLoad) && !old(hasLoaded)) ==> (request == None
         && loading == old(loading) && error == old(error))
    {
      request := AutoLoadEffect();
      ResetEffect();
    }

    /**
     * A render with a new endpoint or page size. Both effects run; when the
     * list had been marked loaded, the reset changes the flag and the commit
     * that follows runs the auto-load again (and once more, as a no-op, after
     * it sets the flag). The net effect is an empty listing on page 1 and,
     * when auto-loading, exactly one request for page 1 with the new options.
     */
    method ChangeOptions(newEndpoint: string, newPageSize: int) returns (request: Option<PageRequest>)
      requires Valid()
      requires newEndpoint != endpoint || newPageSize != pageSize
      modifies this
      ensures Valid()
      ensures endpoint == newEndpoint && pageSize == newPageSize && autoLoad == old(autoLoad)
      ensures tresses == [] && pagination == None && currentPage == 1
      ensures old(autoLoad) ==> (request == Some(PageRequest(PagesCall(newEndpoint), 1, newPageSize))
         && loading && error == None && hasLoaded == old(hasLoaded))
      ensures !old(autoLoad) ==> (request == None && !hasLoaded
         && loading == old(loading) && error == old(error))
    {
      endpoint, pageSize := newEndpoint, newPageSize;
      var seen := hasLoaded;
      request := AutoLoadEffect();
      ResetEffect();
      if hasLoaded != seen {
        seen := hasLoaded;
        request := AutoLoadEffect();
        if hasLoaded != seen {
          var again := AutoLoadEffect();
          assert again == None;
        }
      }
    }

    /**
     * A render with a new `autoLoad`: only the auto-load effect depends on it.
     * Turning it on before anything was loaded requests page 1.
     */
    method ChangeAutoLoad(newAutoLoad: bool) returns (request: Option<PageRequest>)
      requires Valid()
      requires newAutoLoad != autoLoad
      modifies this`autoLoad, this`currentPage, this`hasLoaded, this`loading, this`error
      ensures Valid()
      ensures autoLoad == newAutoLoad
      ensures newAutoLoad && !old(hasLoaded) ==> (request == Some(PageRequest(PagesCall(endpoint), 1, pageSize))
         && currentPage == 1 && hasLoaded && loading && error == None)
      ensures !(newAutoLoad && !old(hasLoaded)) ==> (request == None
         && currentPage == old(currentPage) && hasLoaded == old(hasLoaded)
         && loading == old(loading) && error == old(error))
    {
      autoLoad := newAutoLoad;
      var seen := hasLoaded;
      request := AutoLoadEffect();
      if hasLoaded != seen {
        var again := AutoLoadEffect();
        assert again == None;
      }
    }
  }
}
