/**
 * Client scenarios of the store: the accent-insensitive search from the
 * repository's store test, and a failed load. NFKD and lower-casing are
 * constrained only on the texts the scenario feeds them, with the values the
 * Unicode standard gives: plain ASCII letters decompose to themselves, the
 * letter Å (U+00C5) decomposes into A followed by the combining ring above
 * (U+030A), and lower-casing maps A-Z to a-z.
 */
module Scenarios {
  import opened Wrappers
  import opened Seqs
  import opened Text
  import opened Country
  import Search
  import opened Store

  /** NFKD splits the letter Å of "Åland" and "ÅLAND" into A and the combining ring above. */
  ghost predicate DecomposesAland(lib: TextLib) {
    && lib.nfkd("\U{C5}land") == "A\U{30A}land" && lib.nfkd("\U{C5}LAND") == "A\U{30A}LAND"
    && lib.nfkd("Aland") == "Aland"
    && lib.lower("Aland") == "aland" && lib.lower("ALAND") == "aland"
  }

  /** Germany's search texts are plain ASCII: NFKD keeps them, lower-casing maps A-Z to a-z. */
  ghost predicate GermanyIsPlain(lib: TextLib) {
    && lib.nfkd("Germany") == "Germany" && lib.nfkd("Europe") == "Europe"
    && lib.nfkd("Berlin") == "Berlin" && lib.nfkd("") == ""
    && lib.lower("Germany") == "germany" && lib.lower("Europe") == "europe"
    && lib.lower("Berlin") == "berlin" && lib.lower("") == ""
  }

  /** What the scenario needs of NFKD and lower-casing. */
  ghost predicate KnowsAland(lib: TextLib) {
    DecomposesAland(lib) && GermanyIsPlain(lib)
  }

  function Aland(): Country {
    Country(CountryName("\U{C5}land", None), Some(["Mariehamn"]), Some("Europe"))
  }

  function Germany(): Country {
    Country(CountryName("Germany", None), Some(["Berlin"]), Some("Europe"))
  }

  /** A text that decomposes to itself, has no mark and lower-cases to `low` normalises to `low`. */
  lemma NormPlain(lib: TextLib, s: string, low: string)
    requires lib.nfkd(s) == s && MarkFree(s) && lib.lower(s) == low
    ensures Norm(lib, s) == low
  {
    StripMarksOfMarkFree(s);
  }

  /** Decomposition puts one mark after the first letter; removing marks takes it out again. */
  lemma StripOneMark(a: char, m: char, t: string)
    requires !IsCombiningMark(a) && IsCombiningMark(m) && MarkFree(t)
    ensures StripMarks([a, m] + t) == [a] + t
  {
    assert [a, m] + t == [a] + ([m] + t);
    StripMarksConcat([a], [m] + t);
    StripMarksConcat([m], t);
    StripMarksOfMarkFree(t);
    FilterSingleton(m, KeepsChar());
    FilterSingleton(a, KeepsChar());
  }

  /** A text whose decomposition is a letter, a mark and mark-free text normalises without the mark. */
  lemma NormOneMark(lib: TextLib, s: string, a: char, m: char, t: string, low: string)
    requires lib.nfkd(s) == [a, m] + t && !IsCombiningMark(a) && IsCombiningMark(m) && MarkFree(t)
    requires lib.lower([a] + t) == low
    ensures Norm(lib, s) == low
  {
    StripOneMark(a, m, t);
  }

  /** "Åland", "ÅLAND" and "Aland" all normalise to "aland". */
  lemma AlandNormalises(lib: TextLib)
    requires DecomposesAland(lib)
    ensures Norm(lib, "\U{C5}land") == "aland"
    ensures Norm(lib, "\U{C5}LAND") == "aland"
    ensures Norm(lib, "Aland") == "aland"
  {
    assert "A\U{30A}land" == ['A', '\U{30A}'] + "land" && ['A'] + "land" == "Aland";
    NormOneMark(lib, "\U{C5}land", 'A', '\U{30A}', "land", "aland");
    assert "A\U{30A}LAND" == ['A', '\U{30A}'] + "LAND" && ['A'] + "LAND" == "ALAND";
    NormOneMark(lib, "\U{C5}LAND", 'A', '\U{30A}', "LAND", "aland");
    NormPlain(lib, "Aland", "aland");
  }

  /** An occurrence of `needle` in `hay` uses only characters of `hay`. */
  lemma IncludesOnlyHayChars(hay: string, needle: string, c: char)
    requires Includes(hay, needle) && c in needle
    ensures c in hay
  {
    IncludesSpec(hay, needle);
    var i :| OccursAt(hay, needle, i);
    var k :| 0 <= k < |needle| && needle[k] == c;
    assert hay[i + k] == hay[i..i + |needle|][k];
  }

  /** A search text without the letter 'd' does not include a query that has one. */
  lemma MissesWithoutD(hay: string, nq: string)
    requires 'd' in nq && 'd' !in hay
    ensures !Includes(hay, nq)
  {
    if Includes(hay, nq) { IncludesOnlyHayChars(hay, nq, 'd'); }
  }

  /** Germany's search texts are plain ASCII: they normalise to their lower-case forms. */
  lemma GermanyNormalises(lib: TextLib)
    requires GermanyIsPlain(lib)
    ensures Norm(lib, "Germany") == "germany" && Norm(lib, "") == ""
    ensures Norm(lib, "Europe") == "europe" && Norm(lib, "Berlin") == "berlin"
  {
    NormPlain(lib, "Germany", "germany");
    NormPlain(lib, "", "");
    NormPlain(lib, "Europe", "europe");
    NormPlain(lib, "Berlin", "berlin");
  }

  /** None of Germany's lower-cased search texts has a 'd'. */
  lemma GermanyTextsLackD(nq: string)
    requires 'd' in nq
    ensures !Includes("germany", nq) && !Includes("", nq) && !Includes("europe", nq) && !Includes("berlin", nq)
  {
    MissesWithoutD("germany", nq);
    MissesWithoutD("", nq);
    MissesWithoutD("europe", nq);
    MissesWithoutD("berlin", nq);
  }

  /** Germany's four search texts have no 'd', so no query containing one finds it. */
  lemma GermanyMissesD(lib: TextLib, nq: string)
    requires GermanyIsPlain(lib) && 'd' in nq
    ensures !Search.Matches(lib, Germany(), nq)
  {
    GermanyNormalises(lib);
    GermanyTextsLackD(nq);
    assert Search.CapitalText(Germany()) == "Berlin";
  }

  /** Åland's common name holds the query "aland". */
  lemma AlandMatches(lib: TextLib)
    requires DecomposesAland(lib)
    ensures Search.Matches(lib, Aland(), "aland")
  {
    AlandNormalises(lib);
    assert OccursAt("aland", "aland", 0);
  }

  /** Filtering two elements of which only the first passes leaves the first. */
  lemma FilterFirstOfTwo<T>(x: T, y: T, p: T -> bool)
    requires p(x) && !p(y)
    ensures Filter([x, y], p) == [x]
  {
    assert [x, y] == [x] + [y];
    FilterConcat([x], [y], p);
    FilterSingleton(x, p);
    FilterSingleton(y, p);
  }

  /** A query that normalises to "aland" keeps Åland and drops Germany. */
  lemma FindsOnlyAland(lib: TextLib, query: string)
    requires KnowsAland(lib)
    requires Search.NormalizedQuery(lib, query) == "aland"
    ensures Search.Filtered(lib, [Aland(), Germany()], query) == [Aland()]
  {
    AlandMatches(lib);
    GermanyMissesD(lib, "aland");
    FilterFirstOfTwo(Aland(), Germany(), Search.MatchesQuery(lib, "aland"));
  }

  /** A text that neither starts nor ends with white space is its own trim. */
  lemma TrimUntouched(s: string)
    requires s != [] && !IsJsWhiteSpace(s[0]) && !IsJsWhiteSpace(s[|s| - 1])
    ensures Trim(s) == s
  {
    assert SkipSpaceForward(s, 0) == 0;
    assert SkipSpaceBackward(s, 0, |s|) == |s|;
  }

  /** A query with no surrounding white space normalises as the text itself does. */
  lemma QueryNormalises(lib: TextLib, query: string, low: string)
    requires query != [] && !IsJsWhiteSpace(query[0]) && !IsJsWhiteSpace(query[|query| - 1])
    requires Norm(lib, query) == low
    ensures Search.NormalizedQuery(lib, query) == low
  {
    TrimUntouched(query);
  }

  /** Both "Aland" and "ÅLAND" filter Åland and Germany down to Åland. */
  lemma AlandQueriesFindOnlyAland(lib: TextLib)
    requires KnowsAland(lib)
    ensures Search.Filtered(lib, [Aland(), Germany()], "Aland") == [Aland()]
    ensures Search.Filtered(lib, [Aland(), Germany()], "\U{C5}LAND") == [Aland()]
  {
    AlandNormalises(lib);
    QueryNormalises(lib, "Aland", "aland");
    QueryNormalises(lib, "\U{C5}LAND", "aland");
    FindsOnlyAland(lib, "Aland");
    FindsOnlyAland(lib, "\U{C5}LAND");
  }

  /**
   * The repository's store test: with Åland and Germany in the collection,
   * the query "Aland" (and just as well "ÅLAND") filters down to Åland alone.
   */
  method AccentInsensitiveSearch(lib: TextLib) returns (plain: seq<Country>, accented: seq<Country>)
    requires KnowsAland(lib)
    ensures plain == [Aland()] && accented == [Aland()]
  {
    AlandQueriesFindOnlyAland(lib);
    var store := new CountriesStore(lib);
    store.all := [Aland(), Germany()];
    store.SetQuery("Aland");
    plain := store.Filtered();
    store.SetQuery("\U{C5}LAND");
    accented := store.Filtered();
  }

  /** A load that fails with HTTP 500 records the message and keeps the collection. */
  method FailedLoadKeepsCollection(lib: TextLib, prior: seq<Country>)
    returns (err: Option<string>, kept: seq<Country>, loading: bool)
    ensures err == Some("HTTP 500") && kept == prior && !loading
  {
    var store := new CountriesStore(lib);
    store.Load(Fetched(prior));
    store.Load(Failed(ErrorObject("HTTP 500")));
    err, kept, loading := store.error, store.all, store.isLoading;
  }
}
