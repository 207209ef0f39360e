/**
 * A raw location occurrence (`RawLocation.Record`): cleaned input fields
 * that the disambiguator only reads, and the two link fields it writes in
 * place.
 */
module Records {
  import opened Wrappers
  import opened CityTables

  /** The value of a record's two output fields at one moment. */
  datatype Link = Link(city: Option<CityRec>, code: int)

  class RawRecord {
    const cleanedLocation: string
    const city: string
    const state: string
    const country: string
    const cleanedCountry: string
    var linkedCity: Option<CityRec>
    var linkCode: int

    constructor (cleanedLocation: string, city: string, state: string, country: string,
                 cleanedCountry: string, linkCode: int)
      ensures this.cleanedLocation == cleanedLocation && this.city == city
      ensures this.state == state && this.country == country
      ensures this.cleanedCountry == cleanedCountry
      ensures linkedCity == None && this.linkCode == linkCode
    {
      this.cleanedLocation := cleanedLocation;
      this.city := city;
      this.state := state;
      this.country := country;
      this.cleanedCountry := cleanedCountry;
      linkedCity := None;
      this.linkCode := linkCode;
    }

    function State(): Link
      reads this
    {
      Link(linkedCity, linkCode)
    }
  }

  /**
   * Points every record of `locs` at `city`, leaving `linkCode` alone: the
   * `forEach(loc -> loc.linkedCity = ...)` of the fuzzy pass and of the
   * consolidation pass.
   */
  method Relink(locs: seq<RawRecord>, city: CityRec)
    modifies locs
    ensures forall r :: r in locs ==> r.linkedCity == Some(city) && r.linkCode == old(r.linkCode)
  {
    for i := 0 to |locs|
      invariant forall r :: r in locs[..i] ==> r.linkedCity == Some(city)
      invariant forall r :: r in locs ==> r.linkCode == old(r.linkCode)
    {
      locs[i].linkedCity := Some(city);
    }
  }
}
