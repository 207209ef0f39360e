# Location disambiguation (lodi `Disambiguator`), modelled in Dafny

The disambiguator links raw location records (free-text city, state and
country, with cleaned forms) to canonical city records. `disambiguate` runs
three passes over a list of records, and each pass writes the link fields in
place:

1. **Google lookup.** The cleaned location string is looked up in a
   precomputed table (code 1).
2. **Exact match.** Records still unlinked are matched on city/state for US
   records (code 2) or on city/country for other records (code 3).
3. **Fuzzy match.** The records still unlinked are grouped by a blocking key
   (`countryGroup`: `"US:"` plus the state for US records, the cleaned
   country otherwise). Each group is split by raw city string. Each string
   is scored once against the group's candidate cities, and the best city is
   accepted when its score is strictly above the threshold.

`normalizeInventor` is applied to the records of one inventor. It collapses a
city name that is linked to cities in several US states onto one of them,
and it fails when the first two candidates tie.

The project has seven modules:

- `Wrappers`: `Option`.
- `CityTables`: the city record, the cities table with its four lookups, and
  the google table.
- `Records`: the raw record as a class with two mutable link fields, and the
  re-linking loop.
- `Scoring`: `score`, `CityScore.max` and `bestScore`.
- `Blocking`: `countryGroup` and the decoding of its key.
- `Disambiguation`: the three passes as methods. Each is specified by a step
  function on one record's link state.
- `Consolidation`: `normalizeInventor` as a method over the records, proved
  against ghost predicates that say which candidate a name keeps.

The string similarity (Jaro-Winkler) is a function parameter, and nothing is
assumed about it unless a lemma says so.

Where the code and its own comments disagree, the model follows the code:

- Pass 3 writes only `linkedCity` (line 177). The Javadoc of
  `CODE_FUZZY_CITY` (lines 28-31) describes a code for fuzzy matches, but
  pass 3 never sets it, so a fuzzily linked record keeps the code it had
  before.
- Pass 2 gives an exact city/country hit `CODE_FUZZY_CITY` (line 117). The
  Javadoc of `CODE_EXACT_CITY` (lines 23-26) describes exact city/country
  matches as its own case.
- `normalizeInventor` sorts its candidates in ascending order of record
  count and keeps the first (lines 212-218). So it keeps the least frequent
  state, whereas the method's Javadoc (lines 190-193) and the comment at
  line 210 ask for the dominant one. This is listed under Findings.

Pass 1 also copies the table entry's city when that city is unset (lines
83-86). Such a record carries code 1 without a link, and the model keeps
this behaviour.

## Model

| member | source | states |
|---|---|---|
| Records.Relink | location-disambiguation/src/main/java/lodi/Disambiguator.java:228-232 | every record of the list ends linked to the given city and its `linkCode` is unchanged (also the write at line 177) |
| Scoring.Max | location-disambiguation/src/main/java/lodi/Disambiguator.java:264-266 | the result is one of the two, scores at least as much as both, and is the first one when its score is not lower |
| Scoring.Score | location-disambiguation/src/main/java/lodi/Disambiguator.java:278-289 | the scored candidate is the city that was compared |
| Scoring.ScoreOfCandidate | location-disambiguation/src/main/java/lodi/Disambiguator.java:278-289 | a city with a name is scored by similarity to its name; one without is scored against its region, less 0.05 |
| Scoring.RegionFallbackIsPenalised | location-disambiguation/src/main/java/lodi/Disambiguator.java:282-288 | the same perfect similarity scores 1.0 against a city name but 0.95 against a region |
| Scoring.ScoreBounds | location-disambiguation/src/main/java/lodi/Disambiguator.java:278-289 | for a similarity in [0,1] a score lies in [-0.05, 1] and is strictly above the no-match sentinel |
| Scoring.BestScore | location-disambiguation/src/main/java/lodi/Disambiguator.java:299-312 | no city is returned exactly when the list is absent or empty, and then the result is the sentinel with score -1 |
| Scoring.FoldMaxSpec | location-disambiguation/src/main/java/lodi/Disambiguator.java:303-306 | the reduction by `max` scores at least as well as the seed and every element, and it is either the seed or the earliest element that beats everything before it |
| Scoring.BestScoreIsEarliestMax | location-disambiguation/src/main/java/lodi/Disambiguator.java:303-309 | on a non-empty list the result is the score of the first element with the maximum score |
| Scoring.BestScoreMember | location-disambiguation/src/main/java/lodi/Disambiguator.java:299-312 | a best score above a threshold of at least -1 names a city of the list, equals that city's score and is not beaten by any city of the list |
| Blocking.CountryGroupRoundTrip | location-disambiguation/src/main/java/lodi/Disambiguator.java:241-248 | a US record's key carries the "US:" prefix and decodes back to its state's city list (lines 155-158); any other record whose country has no such prefix keys on its country and gets that country's list |
| Blocking.CountryGroupCollision | location-disambiguation/src/main/java/lodi/Disambiguator.java:155-161 | a non-US record whose cleaned country is literally "US:" plus a state shares the US records' key and is compared against that state's cities |
| Disambiguation.Unlinked | location-disambiguation/src/main/java/lodi/Disambiguator.java:89-93 | the filtered list holds exactly the records of the list whose city is unset |
| Disambiguation.GroupBy | location-disambiguation/src/main/java/lodi/Disambiguator.java:145-148 | every record lands in the group of its key, and a group holds only records of the list with that key |
| Disambiguation.GoogleLookup | location-disambiguation/src/main/java/lodi/Disambiguator.java:80-87 | every record ends in the pass-1 step of its old state: a table hit takes the entry's city and code 1, a miss changes nothing |
| Disambiguation.LookupExact | location-disambiguation/src/main/java/lodi/Disambiguator.java:107-118 | a visited record takes the exact lookup for its country kind, and its code becomes 2 or 3 only on a hit |
| Disambiguation.ExactMatch | location-disambiguation/src/main/java/lodi/Disambiguator.java:104-119 | every record ends in the pass-2 step of its old state; records linked before the pass are untouched |
| Disambiguation.MatchRawCity | location-disambiguation/src/main/java/lodi/Disambiguator.java:171-178 | all records carrying one raw string take the same accepted city, or stay as they were |
| Disambiguation.MatchBlock | location-disambiguation/src/main/java/lodi/Disambiguator.java:141-178 | every record of one block ends in the pass-3 step of its old state |
| Disambiguation.FuzzyMatch | location-disambiguation/src/main/java/lodi/Disambiguator.java:134-179 | every record of the list ends in the pass-3 step of its old state; records linked before the pass are untouched |
| Disambiguation.Disambiguate | location-disambiguation/src/main/java/lodi/Disambiguator.java:68-188 | every record ends in the composition of the three steps applied to its old state, which is a function of its own fields only |
| Disambiguation.LinksAreNeverLost | location-disambiguation/src/main/java/lodi/Disambiguator.java:89-137 | passes 2 and 3 leave a linked record exactly as it is; a pass-1 link survives to the end; with a table of set cities no linked record ends unlinked |
| Disambiguation.ExactStepCodes | location-disambiguation/src/main/java/lodi/Disambiguator.java:107-118 | on an unlinked record pass 2 gives the city/state lookup for US and the city/country lookup otherwise, with code 2 or 3 on a hit and no change on a miss |
| Disambiguation.FuzzyLinkIsBestInBlock | location-disambiguation/src/main/java/lodi/Disambiguator.java:171-177 | a pass-3 link keeps the code, comes from the record's own block list, scores above the threshold, passes the guard and is not beaten by any city of the block |
| Disambiguation.ThresholdIsStrict | location-disambiguation/src/main/java/lodi/Disambiguator.java:176 | an unlinked record is linked by pass 3 if and only if its best score is strictly above the threshold and the guard holds; a score equal to the threshold links nothing |
| Disambiguation.FuzzyStaysInState | location-disambiguation/src/main/java/lodi/Disambiguator.java:155-158 | when each state list holds only that state's cities, a US record is fuzzily linked only within its own state |
| Disambiguation.SameRawCitySameLink | location-disambiguation/src/main/java/lodi/Disambiguator.java:171-177 | two unlinked records with the same raw city and the same key get the same city from pass 3 |
| Disambiguation.MisspelledCityIsFuzzyLinked | location-disambiguation/src/main/java/lodi/Disambiguator.java:68-188 | "Springfeld, IL, US" with no table hit and no exact hit ends linked to Springfield, IL when that city scores 0.96 > 0.85 and beats the other IL cities; its code is the one it had |
| Consolidation.LinkedTo | location-disambiguation/src/main/java/lodi/Disambiguator.java:197-200 | a group holds exactly the records linked to its city, and its size is the number of such links |
| Consolidation.GroupByLinked | location-disambiguation/src/main/java/lodi/Disambiguator.java:197-200 | the keys are exactly the US cities some record links to, each with its group of records |
| Consolidation.GroupRecords | location-disambiguation/src/main/java/lodi/Disambiguator.java:197-207 | the grouping built from the records satisfies what the loop relies on (group sizes are link counts, the grouped cities of a name are its candidates, a record is grouped under the city it was linked to) and the visited names are the names of the linked US records |
| Consolidation.GroupSizes | location-disambiguation/src/main/java/lodi/Disambiguator.java:214 | `map.get(c).size()` is the count of records linked to `c` |
| Consolidation.NamesOfGroups | location-disambiguation/src/main/java/lodi/Disambiguator.java:204-209 | the names the loop visits are exactly the city names of the linked US records |
| Consolidation.GroupCandidates | location-disambiguation/src/main/java/lodi/Disambiguator.java:204-207 | the cities grouped under a name are exactly that name's linked US cities |
| Consolidation.SortByRank | location-disambiguation/src/main/java/lodi/Disambiguator.java:212-215 | the sorted list is a permutation of the candidates in ascending rank |
| Consolidation.InsertSorted | location-disambiguation/src/main/java/lodi/Disambiguator.java:214 | inserting into a rank-sorted list keeps it sorted |
| Consolidation.InsertDistinct | location-disambiguation/src/main/java/lodi/Disambiguator.java:214 | inserting a new element into a list without repeats gives a list without repeats |
| Consolidation.SortDistinct | location-disambiguation/src/main/java/lodi/Disambiguator.java:212-215 | sorting distinct candidates gives distinct candidates |
| Consolidation.InSomeOrder | location-disambiguation/src/main/java/lodi/Disambiguator.java:213 | the candidates of a name are listed once each, in any order |
| Consolidation.RankedCandidates | location-disambiguation/src/main/java/lodi/Disambiguator.java:212-215 | the list holds each candidate of the name once, in ascending rank |
| Consolidation.HeadDecides | location-disambiguation/src/main/java/lodi/Disambiguator.java:217-224 | a single candidate is kept; with more, the first two tie if and only if no candidate ranks strictly below all others, and otherwise the first is that candidate |
| Consolidation.CollapseOnto | location-disambiguation/src/main/java/lodi/Disambiguator.java:228-232 | exactly the records grouped under the other candidates are re-pointed to the first; codes are unchanged |
| Consolidation.StageStep | location-disambiguation/src/main/java/lodi/Disambiguator.java:226-232 | collapsing one name puts its records on the kept candidate and leaves every other record where it was |
| Consolidation.CollapseName | location-disambiguation/src/main/java/lodi/Disambiguator.java:211-233 | one name either ties, with nothing changed, or has a kept candidate onto which all its records are collapsed |
| Consolidation.Consolidate | location-disambiguation/src/main/java/lodi/Disambiguator.java:194-235 | the pass fails if and only if some name is unresolvable; on success every linked US record ends on the kept candidate of its name and all others are unchanged; on failure the names left unvisited include one that is unresolvable, and every record of a finished name is collapsed while every record of an unvisited name is untouched, so no name is half collapsed; codes never change |
| Consolidation.NormalizeInventor | location-disambiguation/src/main/java/lodi/Disambiguator.java:194-235 | `Consolidate` with the ascending order as written: the least frequent candidate is kept, with the same per-name outcome on success and on a tie |
| Consolidation.NormalizeInventorByMajority | location-disambiguation/src/main/java/lodi/Disambiguator.java:190-193 | `Consolidate` with the dominant state kept, as the method's comment asks, with the same per-name outcome on success and on a tie |
| Consolidation.KeptIsUnique | location-disambiguation/src/main/java/lodi/Disambiguator.java:217-224 | a name has at most one kept candidate |
| Consolidation.MajorityKeepsDominant | location-disambiguation/src/main/java/lodi/Disambiguator.java:210 | with the intended order, a candidate is kept if and only if strictly more records link to it than to any other candidate of its name |
| Consolidation.AsWrittenKeepsRarest | location-disambiguation/src/main/java/lodi/Disambiguator.java:214 | as written, a candidate is kept if and only if strictly fewer records link to it than to any other candidate |
| Consolidation.EvenSplitIsUnresolvable | location-disambiguation/src/main/java/lodi/Disambiguator.java:221-224 | two candidates with equal counts make the name unresolvable in either order |
| Consolidation.SpringfieldTie | location-disambiguation/src/main/java/lodi/Disambiguator.java:221-224 | two records in Springfield IL and two in Springfield OH: the name is unresolvable and the pass throws |
| Consolidation.SpringfieldKeepsLeastFrequent | location-disambiguation/src/main/java/lodi/Disambiguator.java:214 | with three IL records and one OH record, the code as written keeps OH and not IL; the intended order keeps IL |
| Consolidation.SpringfieldAsWritten | location-disambiguation/src/main/java/lodi/Disambiguator.java:194-235 | on those records the pass as written succeeds and every record ends on Springfield OH |

## Left out

- The `disambiguate(Connection, ...)` overload (lines 41-57) loads the two tables from a database. It is I/O: the tables are parameters here.
- The printing and the counts computed only for it (lines 78, 95-96, 102, 127-128, 132, 163-167, 181-187) have no effect on the records.
- The parallel streams and `groupingByConcurrent` are not modelled. Each pass is modelled as a sequential loop. Every record's step depends only on that record, so the visiting order does not change the outcome.
- Scores are `real`, not `double`. Jaro-Winkler is not modelled; it is the parameter `sim`.
- Disambiguation.Fuzzy: the guard `cscore.city.stringValue != country` compares Java references. Its outcome depends on string identity, so it is a parameter (`guard`) rather than a computed value.
- `googleConfidenceThreshold` only matters when the google table is loaded, and it is unused by the modelled overload. The table is taken as already filtered.
- Disambiguation.Fuzzy.Valid: the fuzzy pass requires `matchThreshold >= -1`. Below that, the sentinel of an empty block passes the threshold and the source dereferences its null city.
- Null input strings (city, state, country, cleaned fields, region) are not modelled; all are plain strings. The source throws on several of them.
- Consolidation.NamedWhenLinkedUS: every linked US city must have a name. `groupingBy(c -> c.city)` throws on a null key, and that failure is not modelled as a result.
- City records are compared as values. The Java `Cities.Record` class is not part of this model, so whether its `equals` is identity cannot be checked.
- The order in which `normalizeInventor` visits city names and lists candidates follows hash maps. `InSomeOrder` and the `:|` choice of the next name allow any order, and the contracts hold for all of them.
- Consolidation.Consolidate: the names are visited in hash-map order, which is not modelled. On a tie, the ghost result `unvisited` says which names were finished before the exception, but the contract does not pin down which names those are.
- Consolidation.NormalizeInventor: the same visiting order is left open, as for `Consolidate`.
- Consolidation.NormalizeInventorByMajority: the same visiting order is left open, as for `Consolidate`.

## Findings

| source | as written | input that shows it | evidently intended | confidence | as-written member | corrected member |
|---|---|---|---|---|---|---|
| location-disambiguation/src/main/java/lodi/Disambiguator.java:214 | the comparator `size(x) - size(y)` sorts candidates in ascending order, and the first is kept, so the state with the fewest records wins | one inventor with three records linked to Springfield, IL and one to Springfield, OH: all four end on Springfield, OH | keep the dominant state, as the comment at line 210 and the Javadoc at lines 190-193 say | not executed; the contract and counterexample are proved | Consolidation.SpringfieldKeepsLeastFrequent | Consolidation.NormalizeInventorByMajority |
