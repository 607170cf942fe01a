/**
 * A country record as the store sees it: only the fields the search reads.
 * Flags, population and the ISO codes are carried by the application but
 * never inspected by the store's logic.
 */
module Country {
  import opened Wrappers

  /** `name.common` is required; `name.official` may be absent. */
  datatype CountryName = CountryName(common: string, official: Option<string>)

  /** `capital` may be absent in the type; the data source replaces an absent list by `[]`. */
  datatype Country = Country(name: CountryName, capital: Option<seq<string>>, region: Option<string>)
}
