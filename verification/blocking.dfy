/**
 * The blocking key (`countryGroup`) that splits unresolved records into
 * groups, and its decoding back into the slice of the cities table a group
 * is compared against.
 */
module Blocking {
  import opened Wrappers
  import opened CityTables
  import opened Records

  /** The marker `countryGroup` puts in front of a US state. */
  const USPrefix: string := "US:"

  /**
   * `s.equalsIgnoreCase("US")` (and `"US".equalsIgnoreCase(s)` for a
   * non-null `s`). Java compares character by character through upper and
   * lower case: 'u' and 'U' match 'U'; 's', 'S' and the long s U+017F,
   * whose upper case is 'S', match 'S'.
   */
  predicate IsUS(s: string)
  {
    && |s| == 2
    && (s[0] == 'U' || s[0] == 'u')
    && (s[1] == 'S' || s[1] == 's' || s[1] == '\U{017F}')
  }

  /** `country.startsWith("US:")`. */
  predicate HasUSPrefix(key: string)
  {
    |key| >= |USPrefix| && key[..|USPrefix|] == USPrefix
  }

  /** `countryGroup(loc)`: the state behind "US:" for US records, the cleaned country otherwise. */
  function CountryGroup(loc: RawRecord): string
  {
    if IsUS(loc.cleanedCountry) then USPrefix + loc.state else loc.cleanedCountry
  }

  /**
   * The candidate list of a group: a "US:" key is stripped of its prefix and
   * names a state, any other key names a country.
   */
  function BlockCandidates(cities: Cities, key: string): Option<seq<CityRec>>
  {
    if HasUSPrefix(key) then cities.GetState(key[|USPrefix|..]) else cities.GetCountry(key)
  }

  /**
   * Decoding undoes `countryGroup`: the key of a US record carries the prefix
   * and `substring(3)` gives back its state, so its group is compared with
   * that state's cities. A non-US record whose cleaned country does not
   * itself start with "US:" keeps its country as key and is compared with
   * that country's cities.
   */
  lemma CountryGroupRoundTrip(cities: Cities, loc: RawRecord)
    ensures IsUS(loc.cleanedCountry) ==>
      && HasUSPrefix(CountryGroup(loc))
      && CountryGroup(loc)[|USPrefix|..] == loc.state
      && BlockCandidates(cities, CountryGroup(loc)) == cities.GetState(loc.state)
    ensures !IsUS(loc.cleanedCountry) && !HasUSPrefix(loc.cleanedCountry) ==>
      && CountryGroup(loc) == loc.cleanedCountry
      && BlockCandidates(cities, CountryGroup(loc)) == cities.GetCountry(loc.cleanedCountry)
  {
    if IsUS(loc.cleanedCountry) {
      assert (USPrefix + loc.state)[..|USPrefix|] == USPrefix;
      assert (USPrefix + loc.state)[|USPrefix|..] == loc.state;
    }
  }

  /**
   * The key is not injective: a non-US record whose cleaned country is
   * literally "US:" followed by a state lands in the same group as the US
   * records of that state and is matched against that state's cities.
   */
  lemma CountryGroupCollision(cities: Cities, us: RawRecord, other: RawRecord)
    requires IsUS(us.cleanedCountry)
    requires other.cleanedCountry == USPrefix + us.state
    ensures !IsUS(other.cleanedCountry)
    ensures CountryGroup(other) == CountryGroup(us)
    ensures BlockCandidates(cities, CountryGroup(other)) == cities.GetState(us.state)
  {
    assert |other.cleanedCountry| >= 3;
    CountryGroupRoundTrip(cities, us);
  }
}
