/**
 * The country collection store: a flat record of state, five actions that
 * update it in place, and the derived views computed from it on demand.
 */
module Store {
  import opened Wrappers
  import opened Seqs
  import opened Text
  import opened Country
  import Search
  import Paging

  /** What the data source's fetch threw: an `Error` object, or any other value. */
  datatype Thrown = ErrorObject(message: string) | OtherValue(asString: string)

  /** The outcome of awaiting the data source: the records, or what it threw. */
  datatype FetchOutcome = Fetched(countries: seq<Country>) | Failed(thrown: Thrown)

  /** `e instanceof Error ? e.message : String(e)`. */
  function ErrorText(t: Thrown): string {
    match t
    case ErrorObject(m) => m
    case OtherValue(s) => s
  }

  class CountriesStore {
    /** The Unicode routines `norm` calls. */
    const lib: TextLib

    var all: seq<Country>
    var isLoading: bool
    var error: Option<string>
    var query: string
    var page: int
    var pageSize: int
    var selected: Option<Country>

    /** The store as first created: empty, idle, first page of 15. */
    constructor (lib: TextLib)
      ensures this.lib == lib
      ensures all == [] && !isLoading && error == None && query == ""
      ensures page == 1 && pageSize == Paging.DefaultPageSize && selected == None
      ensures Valid()
    {
      this.lib := lib;
      all := [];
      isLoading := false;
      error := None;
      query := "";
      page := 1;
      pageSize := Paging.DefaultPageSize;
      selected := None;
    }

    // --- derived views

    /** `filtered`: exactly the countries of `all` that match the normalised query, in order. */
    function Filtered(): (r: seq<Country>)
      reads this
      ensures |r| <= |all|
      ensures IsFilterOf(r, all, Search.MatchesQuery(lib, Search.NormalizedQuery(lib, query)))
      ensures forall c :: c in r <==> c in all && Search.Matches(lib, c, Search.NormalizedQuery(lib, query))
    {
      Search.FilteredIsFilter(lib, all, query);
      Search.Filtered(lib, all, query)
    }

    /** `total`: how many countries the current query finds. */
    function Total(): (r: nat)
      reads this
      ensures r <= |all|
    {
      |Filtered()|
    }

    /** Nothing is found exactly when no country of `all` matches the current query. */
    lemma TotalZeroExactly()
      ensures Total() == 0 <==> forall c :: c in all ==> !Search.Matches(lib, c, Search.NormalizedQuery(lib, query))
    {
      var f := Filtered();
      assert f != [] ==> f[0] in f;
    }

    /** `totalPages`: the fewest pages of `pageSize` that hold `total`, and at least one. */
    function TotalPages(): (r: int)
      reads this
      requires pageSize > 0
      ensures r >= 1
      ensures Total() <= r * pageSize
      ensures r == 1 || (r - 1) * pageSize < Total()
    {
      Paging.TotalPages(Total(), pageSize)
    }

    /**
     * `paged`: the current page of `filtered`. It never holds more than a
     * page, only holds found countries, and, while the cursor is within
     * `[1, totalPages]`, is empty only when nothing was found.
     */
    function Paged(): (r: seq<Country>)
      reads this
      ensures pageSize > 0 && page >= 1 ==> |r| <= pageSize
      ensures forall c :: c in r ==> c in Filtered()
      ensures Valid() ==> (r == [] <==> Filtered() == [])
    {
      var f := Filtered();
      if pageSize > 0 && page >= 1 then
        Paging.PagedWindow(f, page, pageSize);
        Paging.PagesInRangeAreNonEmpty(f, page, pageSize);
        Paging.Paged(f, page, pageSize)
      else
        Paging.Paged(f, page, pageSize)
    }

    /** The page cursor lies within `[1, totalPages]` of the current filtered result. */
    ghost predicate Valid()
      reads this
    {
      pageSize > 0 && 1 <= page <= TotalPages()
    }

    // --- actions

    /**
     * `load`, as one step: the flag raised and the error cleared at the start
     * are overwritten before anyone else can look, by the outcome below.
     */
    method Load(outcome: FetchOutcome)
      modifies this
      ensures !isLoading
      ensures outcome.Fetched? ==> all == outcome.countries && page == 1 && error == None
      ensures outcome.Failed? ==> all == old(all) && page == old(page) && error == Some(ErrorText(outcome.thrown))
      ensures query == old(query) && pageSize == old(pageSize) && selected == old(selected)
      ensures old(Valid()) ==> Valid()
    {
      isLoading := true;
      error := None;
      match outcome {
        case Fetched(countries) =>
          all := countries;
          page := 1;
        case Failed(thrown) =>
          error := Some(ErrorText(thrown));
      }
      isLoading := false;
    }

    /** `setQuery`: the new query, back to the first page. */
    method SetQuery(q: string)
      modifies this
      ensures query == q && page == 1
      ensures all == old(all) && isLoading == old(isLoading) && error == old(error)
      ensures pageSize == old(pageSize) && selected == old(selected)
      ensures old(Valid()) ==> Valid()
    {
      query := q;
      page := 1;
    }

    /** `select`: set or clear the selection. */
    method Select(c: Option<Country>)
      modifies this
      ensures selected == c
      ensures all == old(all) && isLoading == old(isLoading) && error == old(error)
      ensures query == old(query) && page == old(page) && pageSize == old(pageSize)
      ensures old(Valid()) ==> Valid()
    {
      selected := c;
    }

    /** `nextPage`: one page on, unless already at the last page. */
    method NextPage()
      requires pageSize > 0
      modifies this
      ensures page == if old(page) < old(TotalPages()) then old(page) + 1 else old(page)
      ensures all == old(all) && isLoading == old(isLoading) && error == old(error)
      ensures query == old(query) && pageSize == old(pageSize) && selected == old(selected)
      ensures old(Valid()) ==> Valid()
    {
      if page < TotalPages() {
        page := page + 1;
      }
    }

    /** `prevPage`: one page back, unless already at the first page. */
    method PrevPage()
      modifies this
      ensures page == if old(page) > 1 then old(page) - 1 else old(page)
      ensures all == old(all) && isLoading == old(isLoading) && error == old(error)
      ensures query == old(query) && pageSize == old(pageSize) && selected == old(selected)
      ensures old(Valid()) ==> Valid()
    {
      if page > 1 {
        page := page - 1;
      }
    }
  }
}
