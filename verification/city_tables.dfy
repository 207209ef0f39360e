/**
 * The reference data the disambiguator reads: canonical city records, the
 * cities table with its four lookups, and the precomputed google table.
 * Loading these from the database is not part of this model; they are
 * values that stay fixed for a whole run.
 */
module CityTables {
  import opened Wrappers

  /**
   * One canonical city (`Cities.Record`). `city` may be unset, in which
   * case scoring falls back on `region`. Two records are the same city
   * exactly when they are equal as values.
   */
  datatype CityRec = CityRec(city: Option<string>, region: string, state: string, country: string)

  /**
   * The cities table. A lookup that finds nothing yields `None`, as the
   * Java accessors return null.
   */
  datatype Cities = Cities(
    inState: map<(string, string), CityRec>,    // (city, state) -> record
    inCountry: map<(string, string), CityRec>,  // (city, country) -> record
    byState: map<string, seq<CityRec>>,
    byCountry: map<string, seq<CityRec>>)
  {
    /** `getCityInState(city, state)`: exact match on city name and state. */
    function CityInState(city: string, state: string): Option<CityRec>
    {
      if (city, state) in inState then Some(inState[(city, state)]) else None
    }

    /** `getCityInCountry(city, country)`: exact match on city name and country. */
    function CityInCountry(city: string, country: string): Option<CityRec>
    {
      if (city, country) in inCountry then Some(inCountry[(city, country)]) else None
    }

    /** `getState(state)`: every city of a state, or `None` for an unknown state. */
    function GetState(state: string): Option<seq<CityRec>>
    {
      if state in byState then Some(byState[state]) else None
    }

    /** `getCountry(country)`: every city of a country, or `None` for an unknown country. */
    function GetCountry(country: string): Option<seq<CityRec>>
    {
      if country in byCountry then Some(byCountry[country]) else None
    }

    /** The per-state lists hold only cities of that state. */
    ghost predicate StatesWellFormed()
    {
      forall s, c :: s in byState && c in byState[s] ==> c.state == s
    }
  }

  /**
   * The google table, keyed by the cleaned, concatenated location string.
   * Its entry's city reference may be unset (`goog.get(key).city` can be
   * null), so the value is an `Option`.
   */
  type GoogleCities = map<string, Option<CityRec>>
}
