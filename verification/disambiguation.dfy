/**
 * The three-pass `disambiguate`: google exact lookup, exact city/state or
 * city/country lookup, and blocked fuzzy matching. Each pass writes the link
 * fields of records in place and only looks at records that are still
 * unlinked when it starts.
 *
 * What a pass does to one record depends only on that record's own input
 * fields and its link fields before the pass, so each pass is specified by a
 * step function on `Link` values and each method promises that every record
 * of the list ends in the step's image of its old state.
 *
 * Line numbers refer to location-disambiguation/src/main/java/lodi/Disambiguator.java.
 */
module Disambiguation {
  import opened Wrappers
  import opened CityTables
  import opened Records
  import opened Scoring
  import opened Blocking

  /** Exact match in the google table. */
  const CodeGoogle: int := 1
  /** Exact match on city/state (US) or city/country (non-US). */
  const CodeExactCity: int := 2
  /** Fuzzy match on city name, blocked by state (US) or country (non-US). */
  const CodeFuzzyCity: int := 3

  /**
   * What the fuzzy pass is given: the similarity, the source's reference
   * comparison `cscore.city.stringValue != country` (`guard`, whose outcome
   * on Java string identity is not modelled), and `matchThreshold`.
   */
  datatype Fuzzy = Fuzzy(sim: Similarity, guard: (CityRec, string) -> bool, threshold: real)
  {
    /**
     * Below -1 the sentinel of an empty candidate list would pass the
     * threshold and its null city would be dereferenced.
     */
    predicate Valid() { -1.0 <= threshold }
  }

  // ----- the passes, one record at a time -----

  /** Pass 1 on one record. */
  function GoogleStep(goog: GoogleCities, loc: RawRecord, l: Link): Link
  {
    if loc.cleanedLocation in goog then Link(goog[loc.cleanedLocation], CodeGoogle) else l
  }

  /**
   * The lookup pass 2 performs on a record it visits: the exact match is
   * written to `linkedCity` whatever it is, and the code only on a hit.
   */
  function ExactUpdate(cities: Cities, loc: RawRecord, l: Link): Link
  {
    if IsUS(loc.country) then
      var c := cities.CityInState(loc.city, loc.state);
      Link(c, if c.Some? then CodeExactCity else l.code)
    else
      var c := cities.CityInCountry(loc.city, loc.country);
      Link(c, if c.Some? then CodeFuzzyCity else l.code)
  }

  /** Pass 2 on one record: only a record unlinked after pass 1 is visited. */
  function ExactStep(cities: Cities, loc: RawRecord, l: Link): Link
  {
    if l.city.Some? then l else ExactUpdate(cities, loc, l)
  }

  /**
   * The city accepted for the raw string `raw` in the block `key` whose
   * candidate list is `cityList`, if any (lines 174-177).
   */
  function Pick(f: Fuzzy, key: string, cityList: Option<seq<CityRec>>, raw: string): Option<CityRec>
    requires f.Valid()
  {
    var best := BestScore(f.sim, raw, cityList);
    if best.score > f.threshold && f.guard(best.city.value, key) then best.city else None
  }

  /** The city the fuzzy pass gives a record, from its raw city and blocking key. */
  function FuzzyPick(cities: Cities, f: Fuzzy, loc: RawRecord): Option<CityRec>
    requires f.Valid()
  {
    var key := CountryGroup(loc);
    Pick(f, key, BlockCandidates(cities, key), loc.city)
  }

  /** An accepted city is written to `linkedCity`; `linkCode` is kept. */
  function Adopt(pick: Option<CityRec>, l: Link): Link
  {
    match pick
    case Some(c) => Link(Some(c), l.code)
    case None => l
  }

  /** Pass 3 on one record: only an unlinked record is matched. */
  function FuzzyStep(cities: Cities, f: Fuzzy, loc: RawRecord, l: Link): Link
    requires f.Valid()
  {
    if l.city.Some? then l else Adopt(FuzzyPick(cities, f, loc), l)
  }

  /** All three passes on one record. */
  function Resolve(cities: Cities, goog: GoogleCities, f: Fuzzy, loc: RawRecord, l: Link): Link
    requires f.Valid()
  {
    FuzzyStep(cities, f, loc, ExactStep(cities, loc, GoogleStep(goog, loc, l)))
  }

  // ----- the grouping used by pass 3 -----

  /** The records still unlinked, in list order (`filter(loc -> loc.linkedCity == null)`). */
  function Unlinked(locs: seq<RawRecord>): (u: seq<RawRecord>)
    reads locs
    ensures forall r :: r in u ==> r in locs && r.linkedCity.None?
    ensures forall r :: r in locs && r.linkedCity.None? ==> r in u
  {
    if locs == [] then []
    else (if locs[0].linkedCity.None? then [locs[0]] else []) + Unlinked(locs[1..])
  }

  /**
   * `Collectors.groupingBy(keyOf)`: every record lands in the list of its
   * key, and a list holds only records of its key.
   */
  function GroupBy(rs: seq<RawRecord>, keyOf: RawRecord -> string): (g: map<string, seq<RawRecord>>)
    ensures forall r :: r in rs ==> keyOf(r) in g && r in g[keyOf(r)]
    ensures forall k, r :: k in g && r in g[k] ==> r in rs && keyOf(r) == k
  {
    if rs == [] then map[]
    else
      var g := GroupBy(rs[1..], keyOf);
      var k := keyOf(rs[0]);
      var l := [rs[0]] + (if k in g then g[k] else []);
      var g' := g[k := l];
      assert forall r :: r in rs[1..] ==> r in rs;
      assert forall k', r :: k' in g' && r in g'[k'] ==> r in rs && keyOf(r) == k' by {
        forall k', r | k' in g' && r in g'[k']
          ensures r in rs && keyOf(r) == k'
        {
          if k' == k {
            assert r == rs[0] || (k in g && r in g[k]);
          } else {
            assert r in g[k'];
          }
        }
      }
      g'
  }

  // ----- the passes over the list -----

  /** Pass 1 (lines 80-87): every record whose cleaned location is in the google table takes its entry. */
  method GoogleLookup(goog: GoogleCities, locs: seq<RawRecord>)
    modifies locs
    ensures forall r :: r in locs ==> r.State() == GoogleStep(goog, r, old(r.State()))
  {
    for i := 0 to |locs|
      invariant forall r :: r in locs[..i] ==> r.State() == GoogleStep(goog, r, old(r.State()))
      invariant forall r :: r in locs && r !in locs[..i] ==> r.State() == old(r.State())
    {
      var loc := locs[i];
      if loc.cleanedLocation in goog {
        loc.linkedCity := goog[loc.cleanedLocation];
        loc.linkCode := CodeGoogle;
      }
    }
  }

  /** Pass 2's body for one record (lines 107-118). */
  method LookupExact(cities: Cities, loc: RawRecord)
    modifies loc
    ensures loc.State() == ExactUpdate(cities, loc, old(loc.State()))
  {
    if IsUS(loc.country) {
      loc.linkedCity := cities.CityInState(loc.city, loc.state);
      if loc.linkedCity.Some? {
        loc.linkCode := CodeExactCity;
      }
    } else {
      loc.linkedCity := cities.CityInCountry(loc.city, loc.country);
      if loc.linkedCity.Some? {
        loc.linkCode := CodeFuzzyCity;
      }
    }
  }

  /** Pass 2 (lines 89-119): exact lookup for the records pass 1 left unlinked. */
  method ExactMatch(cities: Cities, locs: seq<RawRecord>)
    modifies locs
    ensures forall r :: r in locs ==> r.State() == ExactStep(cities, r, old(r.State()))
  {
    var pending := Unlinked(locs);
    ghost var visited: set<RawRecord> := {};
    for i := 0 to |pending|
      invariant forall r :: r in pending ==> r in locs && old(r.linkedCity).None?
      invariant forall j :: 0 <= j < i ==> pending[j] in visited
      invariant forall r :: r in visited ==> r in pending
      invariant forall r :: r in locs ==>
                  r.State() == if r in visited then ExactStep(cities, r, old(r.State())) else old(r.State())
    {
      var loc := pending[i];
      assert loc in pending;
      LookupExact(cities, loc);
      visited := visited + {loc};
    }
  }

  /**
   * Pass 3 for one group (lines 141-178): the records of `group` share the
   * blocking key `key`; they are split by raw city string, each string is
   * scored once against the group's candidate list, and an accepted match is
   * written to every record carrying that string.
   */
  method MatchBlock(cities: Cities, f: Fuzzy, key: string, group: seq<RawRecord>)
    requires f.Valid()
    requires forall r :: r in group ==> CountryGroup(r) == key && r.linkedCity.None?
    modifies group
    ensures forall r :: r in group ==> r.State() == FuzzyStep(cities, f, r, old(r.State()))
  {
    var rawCities := GroupBy(group, (r: RawRecord) => r.city);
    var cityList := BlockCandidates(cities, key);
    var names := rawCities.Keys;
    while names != {}
      invariant names <= rawCities.Keys
      invariant forall r :: r in group && r.city in names ==> r.State() == old(r.State())
      invariant forall r :: r in group && r.city !in names ==> r.State() == FuzzyStep(cities, f, r, old(r.State()))
      decreases names
    {
      var rawString :| rawString in names;
      var members := rawCities[rawString];
      assert forall i :: 0 <= i < |members| ==> members[i] in group;
      MatchRawCity(f, key, cityList, rawString, members);
      names := names - {rawString};
    }
  }

  /**
   * The body of the loop over raw city strings (lines 171-178): `members`
   * are the records of one block that carry the raw string `rawString`; the
   * string is scored once and an accepted match is written to all of them.
   */
  method MatchRawCity(f: Fuzzy, key: string, cityList: Option<seq<CityRec>>, rawString: string,
                      members: seq<RawRecord>)
    requires f.Valid()
    modifies members
    ensures forall r :: r in members ==> r.State() == Adopt(Pick(f, key, cityList, rawString), old(r.State()))
  {
    var cscore := BestScore(f.sim, rawString, cityList);
    if cscore.score > f.threshold && f.guard(cscore.city.value, key) {
      Relink(members, cscore.city.value);
    }
  }

  /** Pass 3 (lines 121-179): blocked fuzzy matching for the records pass 2 left unlinked. */
  method FuzzyMatch(cities: Cities, f: Fuzzy, locs: seq<RawRecord>)
    requires f.Valid()
    modifies locs
    ensures forall r :: r in locs ==> r.State() == FuzzyStep(cities, f, r, old(r.State()))
  {
    var pending := Unlinked(locs);
    var groups := GroupBy(pending, CountryGroup);
    var keys := groups.Keys;
    while keys != {}
      invariant keys <= groups.Keys
      invariant forall r :: r in pending <==> r in locs && old(r.linkedCity).None?
      invariant forall r :: r in locs && (r !in pending || CountryGroup(r) in keys) ==> r.State() == old(r.State())
      invariant forall r :: r in pending && CountryGroup(r) !in keys ==> r.State() == FuzzyStep(cities, f, r, old(r.State()))
      decreases keys
    {
      var key :| key in keys;
      var group := groups[key];
      assert forall i :: 0 <= i < |group| ==> group[i] in pending;
      MatchBlock(cities, f, key, group);
      keys := keys - {key};
    }
  }

  /**
   * `disambiguate(cities, goog, rawLocations, googleConfidenceThreshold,
   * matchThreshold)` (lines 68-188): the three passes in order.
   */
  method Disambiguate(cities: Cities, goog: GoogleCities, locs: seq<RawRecord>, f: Fuzzy)
    requires f.Valid()
    modifies locs
    ensures forall r :: r in locs ==> r.State() == Resolve(cities, goog, f, r, old(r.State()))
  {
    GoogleLookup(goog, locs);
    ExactMatch(cities, locs);
    FuzzyMatch(cities, f, locs);
  }

  // ----- what the passes promise -----

  /**
   * Monotone resolution: passes 2 and 3 leave a linked record exactly as it
   * is and never unlink one, and pass 1 can only unlink a record through a
   * google entry whose city is unset.
   */
  lemma LinksAreNeverLost(cities: Cities, goog: GoogleCities, f: Fuzzy, loc: RawRecord, l: Link)
    requires f.Valid()
    ensures l.city.Some? ==> ExactStep(cities, loc, l) == l && FuzzyStep(cities, f, loc, l) == l
    ensures ExactStep(cities, loc, l).city.Some? ==> FuzzyStep(cities, f, loc, ExactStep(cities, loc, l)).city.Some?
    ensures GoogleStep(goog, loc, l).city.Some? ==> Resolve(cities, goog, f, loc, l).city == GoogleStep(goog, loc, l).city
    ensures (forall k :: k in goog ==> goog[k].Some?) && l.city.Some? ==> Resolve(cities, goog, f, loc, l).city.Some?
  {
  }

  /**
   * Pass 2 on an unlinked record: a US record takes the city/state lookup
   * and code 2 on a hit, any other record the city/country lookup and code
   * 3 on a hit; on a miss nothing changes.
   */
  lemma ExactStepCodes(cities: Cities, loc: RawRecord, l: Link)
    requires l.city.None?
    ensures var n := ExactStep(cities, loc, l);
      && n.city == (if IsUS(loc.country) then cities.CityInState(loc.city, loc.state)
                    else cities.CityInCountry(loc.city, loc.country))
      && (n.city.None? ==> n == l)
      && (n.city.Some? ==> n.code == if IsUS(loc.country) then CodeExactCity else CodeFuzzyCity)
  {
  }

  /**
   * What a fuzzy link rests on: the record was unlinked, its code is kept,
   * and the city comes from its own block's candidate list, scores strictly
   * above the threshold, passes the guard, and scores at least as well as
   * every other candidate of the block.
   */
  lemma FuzzyLinkIsBestInBlock(cities: Cities, f: Fuzzy, loc: RawRecord, l: Link)
    requires f.Valid()
    ensures FuzzyStep(cities, f, loc, l).code == l.code
    ensures var n := FuzzyStep(cities, f, loc, l);
      var key := CountryGroup(loc);
      var list := BlockCandidates(cities, key);
      n != l ==>
        && l.city.None? && n.city.Some?
        && list.Some? && n.city.value in list.value
        && Score(f.sim, loc.city, n.city.value).score > f.threshold
        && f.guard(n.city.value, key)
        && forall c :: c in list.value ==> Score(f.sim, loc.city, c).score <= Score(f.sim, loc.city, n.city.value).score
  {
    var key := CountryGroup(loc);
    var list := BlockCandidates(cities, key);
    var best := BestScore(f.sim, loc.city, list);
    if FuzzyStep(cities, f, loc, l) != l {
      BestScoreMember(f.sim, loc.city, list, f.threshold);
    }
  }

  /**
   * The threshold is strict: an unlinked record is linked by pass 3 exactly
   * when its best score is strictly above `matchThreshold` and the guard
   * holds, so a best score equal to the threshold links nothing.
   */
  lemma ThresholdIsStrict(cities: Cities, f: Fuzzy, loc: RawRecord, l: Link)
    requires f.Valid() && l.city.None?
    ensures var key := CountryGroup(loc);
      var best := BestScore(f.sim, loc.city, BlockCandidates(cities, key));
      && (FuzzyStep(cities, f, loc, l) != l <==> best.score > f.threshold && f.guard(best.city.value, key))
      && (best.score == f.threshold ==> FuzzyStep(cities, f, loc, l) == l)
  {
  }

  /**
   * Blocking confinement: when every per-state list holds only cities of
   * its state, a US record is fuzzily linked only to a city of its own
   * state.
   */
  lemma FuzzyStaysInState(cities: Cities, f: Fuzzy, loc: RawRecord, l: Link)
    requires f.Valid() && cities.StatesWellFormed() && IsUS(loc.cleanedCountry)
    ensures FuzzyStep(cities, f, loc, l) != l ==> FuzzyStep(cities, f, loc, l).city.value.state == loc.state
  {
    if FuzzyStep(cities, f, loc, l) != l {
      FuzzyLinkIsBestInBlock(cities, f, loc, l);
      CountryGroupRoundTrip(cities, loc);
    }
  }

  /** Two unlinked records with the same raw city in the same block get the same city from pass 3. */
  lemma SameRawCitySameLink(cities: Cities, f: Fuzzy, a: RawRecord, b: RawRecord, la: Link, lb: Link)
    requires f.Valid()
    requires a.city == b.city && CountryGroup(a) == CountryGroup(b)
    requires la.city.None? && lb.city.None?
    ensures FuzzyStep(cities, f, a, la).city == FuzzyStep(cities, f, b, lb).city
  {
  }

  /**
   * The misspelled "Springfeld, IL, US": no google entry and no exact
   * city/state hit, but "Springfield" is in the IL list and beats every
   * other IL city at 0.96 > 0.85, so the record ends linked to it. Its
   * `linkCode` is the one it came with: pass 3 does not write it.
   */
  lemma MisspelledCityIsFuzzyLinked(cities: Cities, goog: GoogleCities, f: Fuzzy, loc: RawRecord, l: Link,
                                    ilCities: seq<CityRec>, springfield: CityRec)
    requires f.Valid() && f.threshold == 0.85
    requires loc.city == "Springfeld" && loc.state == "IL"
    requires IsUS(loc.country) && IsUS(loc.cleanedCountry)
    requires loc.cleanedLocation !in goog && l.city.None?
    requires cities.CityInState("Springfeld", "IL").None?
    requires cities.GetState("IL") == Some(ilCities)
    requires springfield in ilCities && springfield.city == Some("Springfield")
    requires f.sim("Springfeld", "Springfield") == 0.96
    requires forall c :: c in ilCities && c != springfield ==> Score(f.sim, "Springfeld", c).score < 0.96
    requires f.guard(springfield, "US:IL")
    ensures Resolve(cities, goog, f, loc, l) == Link(Some(springfield), l.code)
  {
    CountryGroupRoundTrip(cities, loc);
    assert CountryGroup(loc) == "US:IL";
    var best := BestScore(f.sim, loc.city, Some(ilCities));
    BestScoreIsEarliestMax(f.sim, loc.city, ilCities);
    assert Score(f.sim, loc.city, springfield).score == 0.96;
    assert best.city == Some(springfield);
  }
}
