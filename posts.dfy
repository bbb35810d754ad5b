/** The post-list hook: the current page and filter, the list request they produce,
    and how an answer (or a thrown error) updates the list and the page counters. */
module Posts {
  import opened Common

  const DefaultPageSize := 10

  datatype PostListItem = PostListItem(
    id: int,
    title: string,
    excerpt: string,
    category: string,
    status: PostStatus,
    tags: seq<string>,
    createdAt: string)

  /** Optional filter fields; an absent field is left out of the request. */
  datatype PostsFilter = PostsFilter(category: Option<string>, tag: Option<string>, keyword: Option<string>)

  const EmptyFilter := PostsFilter(None, None, None)

  datatype Pagination = Pagination(
    page: int,
    size: int,
    totalPages: int,
    totalElements: int,
    hasNext: bool,
    hasPrevious: bool)

  const InitialPagination := Pagination(0, DefaultPageSize, 0, 0, false, false)

  /** The parameters of the list request. */
  datatype PostsQuery = PostsQuery(page: int, size: int, category: Option<string>, tag: Option<string>, keyword: Option<string>)

  /** One page of the server's answer. */
  datatype PageData = PageData(
    content: seq<PostListItem>,
    totalPages: int,
    totalElements: int,
    hasNext: bool,
    hasPrevious: bool)

  /** How the list request ended: an answer with its `success` flag, or a thrown error's message. */
  datatype PostsOutcome = Answered(success: bool, data: PageData) | Threw(message: string)

  /** The request for the current page and filter. */
  function QueryFor(p: Pagination, f: PostsFilter): (q: PostsQuery)
    ensures q.page == p.page && q.size == p.size
    ensures q.category == f.category && q.tag == f.tag && q.keyword == f.keyword
  {
    PostsQuery(p.page, p.size, f.category, f.tag, f.keyword)
  }

  /** The counters of an answer merged into the pagination; page and size stay as requested. */
  function MergePage(p: Pagination, d: PageData): (r: Pagination)
    ensures r.page == p.page && r.size == p.size
    ensures r.totalPages == d.totalPages && r.totalElements == d.totalElements
    ensures r.hasNext == d.hasNext && r.hasPrevious == d.hasPrevious
  {
    p.(totalPages := d.totalPages, totalElements := d.totalElements, hasNext := d.hasNext, hasPrevious := d.hasPrevious)
  }

  /** Merging the same answer twice is merging it once. */
  lemma MergePageIdempotent(p: Pagination, d: PageData)
    ensures MergePage(MergePage(p, d), d) == MergePage(p, d)
  {
  }

  /** The query built after an answer asks for the same page, size and filter as before it. */
  lemma MergeKeepsQuery(p: Pagination, d: PageData, f: PostsFilter)
    ensures QueryFor(MergePage(p, d), f) == QueryFor(p, f)
  {
  }

  class PostsList {
    var posts: seq<PostListItem>
    var pagination: Pagination
    var filter: PostsFilter
    var isLoading: bool
    var error: Option<string>

    /** `usePosts(initialFilter)`: first page of ten, no posts, the given filter or none. */
    constructor(initialFilter: Option<PostsFilter>)
      ensures posts == [] && pagination == InitialPagination
      ensures filter == (if initialFilter.Some? then initialFilter.value else EmptyFilter)
      ensures !isLoading && error == None
    {
      posts := [];
      pagination := InitialPagination;
      filter := if initialFilter.Some? then initialFilter.value else EmptyFilter;
      isLoading := false;
      error := None;
    }

    /** Start of `fetchPosts()`: loading, no error, and the request for the current page and filter. */
    method StartFetch() returns (query: PostsQuery)
      modifies this
      ensures query == QueryFor(pagination, filter)
      ensures isLoading && error == None
      ensures posts == old(posts) && pagination == old(pagination) && filter == old(filter)
    {
      isLoading := true;
      error := None;
      query := QueryFor(pagination, filter);
    }

    /** End of `fetchPosts()`: a successful answer replaces the list and the counters; an answer
        with `success` false changes nothing; a thrown error empties the list and records its message. */
    method FinishFetch(outcome: PostsOutcome)
      modifies this
      ensures !isLoading && filter == old(filter)
      ensures outcome.Answered? && outcome.success ==>
        posts == outcome.data.content && pagination == MergePage(old(pagination), outcome.data)
        && error == old(error)
      ensures outcome.Answered? && !outcome.success ==>
        posts == old(posts) && pagination == old(pagination) && error == old(error)
      ensures outcome.Threw? ==>
        posts == [] && pagination == old(pagination) && error == Some(outcome.message)
    {
      match outcome {
        case Answered(success, data) =>
          if success {
            posts := data.content;
            pagination := MergePage(pagination, data);
          }
        case Threw(message) =>
          error := Some(message);
          posts := [];
      }
      isLoading := false;
    }

    /** `setFilter(f)`: a new filter starts again from the first page. */
    method SetFilter(f: PostsFilter)
      modifies this
      ensures filter == f && pagination == old(pagination).(page := 0)
      ensures posts == old(posts) && isLoading == old(isLoading) && error == old(error)
    {
      filter := f;
      pagination := pagination.(page := 0);
    }

    /** `setPage(p)`: only the page changes. */
    method SetPage(page: int)
      modifies this
      ensures pagination == old(pagination).(page := page)
      ensures filter == old(filter) && posts == old(posts) && isLoading == old(isLoading) && error == old(error)
    {
      pagination := pagination.(page := page);
    }
  }

  /** Changing the filter on any page makes the next request ask for page 0 with the new filter,
      at the old page size. */
  method FilterChangeFetchesFirstPage(list: PostsList, f: PostsFilter) returns (query: PostsQuery)
    modifies list
    ensures query == PostsQuery(0, old(list.pagination.size), f.category, f.tag, f.keyword)
  {
    list.SetFilter(f);
    query := list.StartFetch();
  }
}
