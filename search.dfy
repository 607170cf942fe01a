/**
 * The store's search: the trimmed, normalised query and the filtered view of
 * the collection, matched inclusively across four fields of each country.
 */
module Search {
  import opened Wrappers
  import opened Seqs
  import opened Text
  import opened Country

  /** `normalizedQuery`: only the query is trimmed before normalising. */
  function NormalizedQuery(lib: TextLib, query: string): string {
    Norm(lib, Trim(query))
  }

  /** `c.capital?.join(' ') ?? ''`. */
  function CapitalText(c: Country): (r: string)
    ensures c.capital == None || c.capital == Some([]) ==> r == ""
    ensures c.capital.Some? ==> forall k :: 0 <= k < |c.capital.value| ==> Includes(r, c.capital.value[k])
  {
    match c.capital
    case None => ""
    case Some(parts) =>
      forall k | 0 <= k < |parts| ensures Includes(Join(parts, " "), parts[k]) {
        JoinIncludesParts(parts, " ", k);
      }
      Join(parts, " ")
  }

  /** The filter's callback: the normalised query occurs in the normalised form of some field. */
  predicate Matches(lib: TextLib, c: Country, nq: string) {
    || Includes(Norm(lib, c.name.common), nq)
    || Includes(Norm(lib, c.name.official.GetOr("")), nq)
    || Includes(Norm(lib, c.region.GetOr("")), nq)
    || Includes(Norm(lib, CapitalText(c)), nq)
  }

  /** The callback as a value, for Filter. */
  function MatchesQuery(lib: TextLib, nq: string): Country -> bool {
    c => Matches(lib, c, nq)
  }

  /**
   * A country found by a normalised query is found by every text that
   * query contains.
   */
  lemma MatchesNarrows(lib: TextLib, c: Country, nq1: string, nq2: string)
    requires Includes(nq2, nq1) && Matches(lib, c, nq2)
    ensures Matches(lib, c, nq1)
  {
    if Includes(Norm(lib, c.name.common), nq2) {
      IncludesTrans(Norm(lib, c.name.common), nq2, nq1);
    } else if Includes(Norm(lib, c.name.official.GetOr("")), nq2) {
      IncludesTrans(Norm(lib, c.name.official.GetOr("")), nq2, nq1);
    } else if Includes(Norm(lib, c.region.GetOr("")), nq2) {
      IncludesTrans(Norm(lib, c.region.GetOr("")), nq2, nq1);
    } else {
      IncludesTrans(Norm(lib, CapitalText(c)), nq2, nq1);
    }
  }

  /** The empty normalised query is found in every country. */
  lemma EverythingMatchesEmpty(lib: TextLib, c: Country)
    ensures Matches(lib, c, "")
  {
    IncludesEmpty(Norm(lib, c.name.common));
  }

  /** `filtered`: the whole collection for an empty query, else the matching countries. */
  function Filtered(lib: TextLib, all: seq<Country>, query: string): (r: seq<Country>)
    ensures NormalizedQuery(lib, query) == "" ==> r == all
    ensures IsFilterOf(r, all, MatchesQuery(lib, NormalizedQuery(lib, query)))
    ensures forall c :: c in r <==> c in all && Matches(lib, c, NormalizedQuery(lib, query))
  {
    var nq := NormalizedQuery(lib, query);
    var p := MatchesQuery(lib, nq);
    if nq == "" then
      forall c | c in all ensures Matches(lib, c, nq) { EverythingMatchesEmpty(lib, c); }
      FilterKeepsAll(all, p);
      FilterIsFilterOf(all, p);
      IsFilterOfMembers(all, all, p);
      all
    else
      FilterIsFilterOf(all, p);
      IsFilterOfMembers(Filter(all, p), all, p);
      Filter(all, p)
  }

  /**
   * The shortcut for an empty query changes nothing: filtering with the empty
   * query would keep every country anyway.
   */
  lemma EmptyQueryShortcutAgrees(lib: TextLib, all: seq<Country>, query: string)
    requires NormalizedQuery(lib, query) == ""
    ensures Filtered(lib, all, query) == Filter(all, MatchesQuery(lib, ""))
  {
    forall i | 0 <= i < |all| ensures MatchesQuery(lib, "")(all[i]) { EverythingMatchesEmpty(lib, all[i]); }
    FilterKeepsAll(all, MatchesQuery(lib, ""));
  }

  /** Queries that differ only in leading and trailing white space filter alike. */
  lemma FilteredIgnoresSurroundingSpace(lib: TextLib, all: seq<Country>, query: string)
    ensures Filtered(lib, all, Trim(query)) == Filtered(lib, all, query)
  {
    TrimIdempotent(query);
  }

  /** `filtered` always agrees with running the filter, shortcut or not. */
  lemma FilteredIsFilter(lib: TextLib, all: seq<Country>, query: string)
    ensures Filtered(lib, all, query) == Filter(all, MatchesQuery(lib, NormalizedQuery(lib, query)))
  {
    if NormalizedQuery(lib, query) == "" {
      EmptyQueryShortcutAgrees(lib, all, query);
    }
  }

  /**
   * When the new normalised query contains the old one, the new `filtered`
   * is the old `filtered` filtered again: a query whose normalised form
   * contains the old normalised form never brings back a country the old
   * query had dropped.
   */
  lemma FilteredNarrows(lib: TextLib, all: seq<Country>, q1: string, q2: string)
    requires Includes(NormalizedQuery(lib, q2), NormalizedQuery(lib, q1))
    ensures Filtered(lib, all, q2) == Filter(Filtered(lib, all, q1), MatchesQuery(lib, NormalizedQuery(lib, q2)))
  {
    var nq1, nq2 := NormalizedQuery(lib, q1), NormalizedQuery(lib, q2);
    forall c | MatchesQuery(lib, nq2)(c) ensures MatchesQuery(lib, nq1)(c) {
      MatchesNarrows(lib, c, nq1, nq2);
    }
    FilteredIsFilter(lib, all, q1);
    FilteredIsFilter(lib, all, q2);
    FilterNarrows(all, MatchesQuery(lib, nq1), MatchesQuery(lib, nq2));
  }
}
