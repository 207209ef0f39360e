/**
 * `normalizeInventor`: among the linked US records of one inventor, a city
 * name linked to cities in several states is collapsed onto one of them.
 *
 * The source ranks the candidate cities of a name by how many records are
 * linked to each, ascending, fails when the first two ranks tie, and
 * re-points the records of every other candidate to the first. Ascending
 * order keeps the LEAST frequent candidate although the comments ask for the
 * dominant one; `Keep` selects between the order as written
 * (`LeastFrequent`) and the intended one (`MostFrequent`).
 *
 * Line numbers refer to location-disambiguation/src/main/java/lodi/Disambiguator.java.
 */
module Consolidation {
  import opened Wrappers
  import opened CityTables
  import opened Records
  import opened Blocking

  /** Which candidate the records of a city name are collapsed onto. */
  datatype Keep = LeastFrequent | MostFrequent

  /** A link the pass considers: set, to a city whose country is "US" ignoring case. */
  predicate LinkedUS(l: Option<CityRec>)
  {
    l.Some? && IsUS(l.value.country)
  }

  /** The records' `linkedCity` fields, in list order. */
  function Links(records: seq<RawRecord>): (ls: seq<Option<CityRec>>)
    reads records
    ensures |ls| == |records|
    ensures forall i :: 0 <= i < |records| ==> ls[i] == records[i].linkedCity
  {
    if records == [] then [] else [records[0].linkedCity] + Links(records[1..])
  }

  /** How many entries of `ls` link to `c` (`map.get(c).size()`). */
  function Count(ls: seq<Option<CityRec>>, c: CityRec): nat
  {
    if ls == [] then 0 else (if ls[0] == Some(c) then 1 else 0) + Count(ls[1..], c)
  }

  /** The cities named `name` that some linked US entry of `ls` points to. */
  ghost function Candidates(ls: seq<Option<CityRec>>, name: string): set<CityRec>
  {
    set i | 0 <= i < |ls| && LinkedUS(ls[i]) && ls[i].value.city == Some(name) :: ls[i].value
  }

  /** The city names of the linked US entries of `ls`. */
  ghost function Names(ls: seq<Option<CityRec>>): set<string>
  {
    set i | 0 <= i < |ls| && LinkedUS(ls[i]) && ls[i].value.city.Some? :: ls[i].value.city.value
  }

  /** The sort key: the comparator `size(x) - size(y)` as written, reversed for the intended order. */
  function Rank(keep: Keep, n: nat): int
  {
    if keep == LeastFrequent then n else -(n as int)
  }

  /** `t` is the candidate of `name` whose rank is strictly below every other candidate's. */
  ghost predicate IsKept(ls: seq<Option<CityRec>>, keep: Keep, name: string, t: CityRec)
  {
    && t in Candidates(ls, name)
    && forall c :: c in Candidates(ls, name) && c != t ==> Rank(keep, Count(ls, c)) > Rank(keep, Count(ls, t))
  }

  /** The name has a candidate to collapse onto: the first two of its ranking do not tie. */
  ghost predicate Resolvable(ls: seq<Option<CityRec>>, keep: Keep, name: string)
  {
    exists t :: IsKept(ls, keep, name, t)
  }

  /**
   * What a record may hold after the pass, given what it held before: a
   * linked US record ends on the kept candidate of its city name, any
   * other record as it was.
   */
  ghost predicate Normalized(ls: seq<Option<CityRec>>, keep: Keep, before: Option<CityRec>, after: Option<CityRec>)
  {
    if LinkedUS(before) && before.value.city.Some?
    then after.Some? && IsKept(ls, keep, before.value.city.value, after.value)
    else after == before
  }

  /** Every linked US record's city has a name (the pass groups cities by it). */
  predicate NamedWhenLinkedUS(records: seq<RawRecord>)
    reads records
  {
    forall i :: 0 <= i < |records| && LinkedUS(records[i].linkedCity) ==> records[i].linkedCity.value.city.Some?
  }

  // ----- ranking -----

  predicate SortedBy(s: seq<CityRec>, rank: CityRec -> int)
  {
    forall i, j :: 0 <= i <= j < |s| ==> rank(s[i]) <= rank(s[j])
  }

  predicate Distinct(s: seq<CityRec>)
  {
    forall i, j :: 0 <= i < j < |s| ==> s[i] != s[j]
  }

  /** Places `x` before the first element ranked at least as high. */
  function Insert(x: CityRec, s: seq<CityRec>, rank: CityRec -> int): (r: seq<CityRec>)
    ensures multiset(r) == multiset(s) + multiset{x}
  {
    if s == [] || rank(x) <= rank(s[0]) then [x] + s
    else
      assert s == [s[0]] + s[1..];
      [s[0]] + Insert(x, s[1..], rank)
  }

  lemma {:induction false} InsertSorted(x: CityRec, s: seq<CityRec>, rank: CityRec -> int)
    requires SortedBy(s, rank)
    ensures SortedBy(Insert(x, s, rank), rank)
  {
    if s != [] && rank(x) > rank(s[0]) {
      var t := Insert(x, s[1..], rank);
      InsertSorted(x, s[1..], rank);
      forall j | 0 <= j < |t|
        ensures rank(s[0]) <= rank(t[j])
      {
        assert t[j] in multiset(t);
        assert t[j] == x || t[j] in s[1..];
      }
      assert Insert(x, s, rank) == [s[0]] + t;
    }
  }

  lemma {:induction false} InsertDistinct(x: CityRec, s: seq<CityRec>, rank: CityRec -> int)
    requires Distinct(s) && x !in s
    ensures Distinct(Insert(x, s, rank))
  {
    if s != [] && rank(x) > rank(s[0]) {
      var t := Insert(x, s[1..], rank);
      assert forall k :: 0 <= k < |s| - 1 ==> s[1..][k] == s[k + 1];
      InsertDistinct(x, s[1..], rank);
      forall j | 0 <= j < |t|
        ensures t[j] != s[0]
      {
        assert t[j] in multiset(t);
        assert t[j] == x || t[j] in s[1..];
      }
      assert Insert(x, s, rank) == [s[0]] + t;
    }
  }

  /**
   * `sorted(comparator)`: a stable insertion sort by rank. The result is a
   * permutation of the input ordered by rank.
   */
  function SortByRank(cs: seq<CityRec>, rank: CityRec -> int): (s: seq<CityRec>)
    ensures multiset(s) == multiset(cs)
    ensures SortedBy(s, rank)
  {
    if cs == [] then []
    else
      var t := SortByRank(cs[1..], rank);
      assert cs == [cs[0]] + cs[1..];
      InsertSorted(cs[0], t, rank);
      Insert(cs[0], t, rank)
  }

  /** Sorting a list without repeats gives a list without repeats. */
  lemma {:induction false} SortDistinct(cs: seq<CityRec>, rank: CityRec -> int)
    requires Distinct(cs)
    ensures Distinct(SortByRank(cs, rank))
  {
    if cs != [] {
      var t := SortByRank(cs[1..], rank);
      assert cs == [cs[0]] + cs[1..];
      assert forall k :: 0 <= k < |cs| - 1 ==> cs[1..][k] == cs[k + 1];
      SortDistinct(cs[1..], rank);
      assert cs[0] !in multiset(t);
      InsertDistinct(cs[0], t, rank);
    }
  }

  /** The comparator of the pass: the rank of a candidate's record count. */
  function RankBy(byCity: map<CityRec, seq<RawRecord>>, keep: Keep): CityRec -> int
  {
    (c: CityRec) => if c in byCity then Rank(keep, |byCity[c]|) else 0
  }

  /**
   * The ranked candidates decide the outcome: with one candidate it is kept;
   * with more, the first two tie exactly when no candidate ranks strictly
   * below all others, and otherwise the first is that candidate.
   */
  lemma HeadDecides(ls: seq<Option<CityRec>>, keep: Keep, name: string,
                    s: seq<CityRec>, rank: CityRec -> int)
    requires |s| >= 1 && Distinct(s) && SortedBy(s, rank)
    requires forall c :: c in s <==> c in Candidates(ls, name)
    requires forall c :: c in s ==> rank(c) == Rank(keep, Count(ls, c))
    ensures |s| == 1 ==> IsKept(ls, keep, name, s[0])
    ensures |s| > 1 ==> (rank(s[0]) == rank(s[1]) <==> !Resolvable(ls, keep, name))
    ensures |s| > 1 && rank(s[0]) != rank(s[1]) ==> IsKept(ls, keep, name, s[0])
  {
    if |s| == 1 {
      assert forall c :: c in Candidates(ls, name) ==> c == s[0];
    } else if rank(s[0]) == rank(s[1]) {
      forall t | t in Candidates(ls, name)
        ensures exists c :: c in Candidates(ls, name) && c != t && Rank(keep, Count(ls, c)) <= Rank(keep, Count(ls, t))
      {
        var k :| 0 <= k < |s| && s[k] == t;
        if k == 0 {
          assert s[1] in Candidates(ls, name) && s[1] != t;
        } else {
          assert s[0] in Candidates(ls, name) && s[0] != t && rank(s[0]) <= rank(s[k]);
        }
      }
    } else {
      forall c | c in Candidates(ls, name) && c != s[0]
        ensures Rank(keep, Count(ls, c)) > Rank(keep, Count(ls, s[0]))
      {
        var k :| 0 <= k < |s| && s[k] == c;
        assert rank(s[1]) <= rank(s[k]);
      }
      assert IsKept(ls, keep, name, s[0]);
    }
  }

  // ----- the pass -----

  /** The records linked to `c`, in list order: one group of `groupingBy(r -> r.linkedCity)`. */
  function LinkedTo(records: seq<RawRecord>, c: CityRec): (rs: seq<RawRecord>)
    reads records
    ensures forall i :: 0 <= i < |rs| ==> rs[i] in records && rs[i].linkedCity == Some(c)
    ensures forall r :: r in records && r.linkedCity == Some(c) ==> r in rs
    ensures |rs| == Count(Links(records), c)
  {
    if records == [] then []
    else
      var rest := LinkedTo(records[1..], c);
      assert Links(records) == [records[0].linkedCity] + Links(records[1..]);
      assert forall r :: r in records ==> r == records[0] || r in records[1..];
      if records[0].linkedCity == Some(c) then [records[0]] + rest else rest
  }

  /** `groupingBy(r -> r.linkedCity)` over the linked US records (lines 197-200). */
  function GroupByLinked(records: seq<RawRecord>): (g: map<CityRec, seq<RawRecord>>)
    reads records
    ensures forall c :: c in g ==> LinkedUS(Some(c)) && g[c] == LinkedTo(records, c) && g[c] != []
    ensures forall r :: r in records && LinkedUS(r.linkedCity) ==> r.linkedCity.value in g
  {
    map c | c in (set r | r in records && LinkedUS(r.linkedCity) :: r.linkedCity.value) :: LinkedTo(records, c)
  }

  /** What `GroupByLinked` promises of `byCity`, without its definition. */
  ghost predicate IsGrouping(records: seq<RawRecord>, byCity: map<CityRec, seq<RawRecord>>)
    reads records
  {
    && (forall c :: c in byCity ==> LinkedUS(Some(c)) && byCity[c] == LinkedTo(records, c) && byCity[c] != [])
    && (forall r :: r in records && LinkedUS(r.linkedCity) ==> r.linkedCity.value in byCity)
  }

  /** Some city of `cities` has `r` among its grouped records. */
  ghost predicate Moved(byCity: map<CityRec, seq<RawRecord>>, cities: seq<CityRec>, r: RawRecord)
  {
    exists c :: c in cities && c in byCity && r in byCity[c]
  }

  /** The re-linking loop (lines 228-232): the records of every city in `others` are pointed at `first`. */
  method CollapseOnto(records: seq<RawRecord>, byCity: map<CityRec, seq<RawRecord>>,
                      others: seq<CityRec>, first: CityRec)
    requires forall c :: c in others ==> c in byCity
    requires forall c, i :: c in byCity && 0 <= i < |byCity[c]| ==> byCity[c][i] in records
    modifies records
    ensures forall r :: r in records ==> r.linkCode == old(r.linkCode)
    ensures forall r :: r in records ==>
              r.linkedCity == if Moved(byCity, others, r) then Some(first) else old(r.linkedCity)
  {
    for j := 0 to |others|
      invariant forall r :: r in records ==> r.linkCode == old(r.linkCode)
      invariant forall r :: r in records ==>
                  r.linkedCity == if Moved(byCity, others[..j], r) then Some(first) else old(r.linkedCity)
    {
      var members := byCity[others[j]];
      assert forall i :: 0 <= i < |members| ==> members[i] in records;
      Relink(members, first);
      assert forall r :: Moved(byCity, others[..j + 1], r) <==> Moved(byCity, others[..j], r) || r in members by {
        assert others[..j + 1] == others[..j] + [others[j]];
      }
    }
  }

  /** The candidates of a set, in some order (the iteration order of a hash map). */
  method InSomeOrder(cs: set<CityRec>) returns (xs: seq<CityRec>)
    ensures forall c :: c in xs <==> c in cs
    ensures Distinct(xs)
  {
    xs := [];
    var rest := cs;
    while rest != {}
      invariant rest <= cs
      invariant forall c :: c in xs <==> c in cs && c !in rest
      invariant Distinct(xs)
      decreases rest
    {
      var c :| c in rest;
      xs := xs + [c];
      rest := rest - {c};
    }
  }

  /**
   * The cities linked under `cityName`, sorted by the comparator (lines
   * 212-215): the same cities without repeats, in ascending rank.
   */
  method RankedCandidates(byCity: map<CityRec, seq<RawRecord>>, keep: Keep, cityName: string)
    returns (cityStates: seq<CityRec>)
    ensures forall c :: c in cityStates <==> c in byCity && c.city == Some(cityName)
    ensures Distinct(cityStates) && SortedBy(cityStates, RankBy(byCity, keep))
  {
    var candidates := InSomeOrder(set c | c in byCity && c.city == Some(cityName));
    cityStates := SortByRank(candidates, RankBy(byCity, keep));
    SortDistinct(candidates, RankBy(byCity, keep));
    forall c
      ensures c in cityStates <==> c in candidates
    {
      assert c in cityStates <==> c in multiset(cityStates);
      assert c in candidates <==> c in multiset(candidates);
    }
  }

  /**
   * Where a record stands while the names are visited: a linked US record
   * whose name is no longer pending is on its kept candidate, any other
   * record is as it was.
   */
  ghost predicate Stage(ls: seq<Option<CityRec>>, keep: Keep, pending: set<string>,
                        before: Option<CityRec>, now: Option<CityRec>)
  {
    if LinkedUS(before) && before.value.city.Some? && before.value.city.value !in pending
    then Normalized(ls, keep, before, now)
    else now == before
  }

  /** A name of the linked entries has a candidate. */
  lemma NamedHasCandidate(ls: seq<Option<CityRec>>, name: string)
    requires name in Names(ls)
    ensures Candidates(ls, name) != {}
  {
    var i :| 0 <= i < |ls| && LinkedUS(ls[i]) && ls[i].value.city.Some? && ls[i].value.city.value == name;
    assert ls[i].value in Candidates(ls, name);
  }

  /** Collapsing one name onto its kept candidate `s[0]` moves every record one stage on. */
  lemma StageStep(ls: seq<Option<CityRec>>, keep: Keep, pending: set<string>, name: string,
                  s: seq<CityRec>, before: Option<CityRec>, now: Option<CityRec>, after: Option<CityRec>)
    requires name in pending && Stage(ls, keep, pending, before, now)
    requires |s| >= 1 && IsKept(ls, keep, name, s[0])
    requires forall c :: c in s <==> c in Candidates(ls, name)
    requires before in ls
    requires after == if before.Some? && before.value in s[1..] then Some(s[0]) else now
    ensures Stage(ls, keep, pending - {name}, before, after)
  {
    assert forall c :: c in s[1..] ==> c in s;
    if LinkedUS(before) && before.value.city == Some(name) {
      var i :| 0 <= i < |ls| && ls[i] == before;
      assert before.value in Candidates(ls, name);
      assert before.value in s;
      assert before.value == s[0] || before.value in s[1..];
    }
  }

  /**
   * What the grouping tells the pass, for `ls` the links of `records` and
   * `origin` each record's link when the grouping was built: group sizes are
   * link counts, the grouped cities of a name are its candidates, and a
   * record is in a group exactly when it was linked to that city.
   */
  ghost predicate GroupedBy(records: seq<RawRecord>, byCity: map<CityRec, seq<RawRecord>>,
                            ls: seq<Option<CityRec>>, origin: map<RawRecord, Option<CityRec>>)
  {
    && (forall c :: c in byCity ==> |byCity[c]| == Count(ls, c))
    && GroupsAreCandidates(byCity, ls)
    && GroupsHoldOrigin(records, byCity, ls, origin)
  }

  ghost predicate GroupsAreCandidates(byCity: map<CityRec, seq<RawRecord>>, ls: seq<Option<CityRec>>)
  {
    && (forall c :: c in byCity ==> c.city.Some? && c in Candidates(ls, c.city.value))
    && (forall n, c :: c in Candidates(ls, n) ==> c in byCity && c.city == Some(n))
  }

  ghost predicate GroupsHoldOrigin(records: seq<RawRecord>, byCity: map<CityRec, seq<RawRecord>>,
                                   ls: seq<Option<CityRec>>, origin: map<RawRecord, Option<CityRec>>)
  {
    && (forall c, i :: c in byCity && 0 <= i < |byCity[c]| ==> byCity[c][i] in records)
    && (forall r :: r in records ==> r in origin && origin[r] in ls)
    && (forall c, r :: c in byCity && r in records ==> (r in byCity[c] <==> origin[r] == Some(c)))
  }

  /**
   * One turn of the loop over city names (lines 211-233) for `cityName`.
   * `ok == false` is the tie, on which nothing is changed.
   */
  method CollapseName(records: seq<RawRecord>, byCity: map<CityRec, seq<RawRecord>>, keep: Keep,
                      cityName: string, ghost ls: seq<Option<CityRec>>, ghost pending: set<string>,
                      ghost origin: map<RawRecord, Option<CityRec>>)
    returns (ok: bool)
    requires cityName in pending && Candidates(ls, cityName) != {}
    requires GroupedBy(records, byCity, ls, origin)
    requires forall r :: r in records ==> Stage(ls, keep, pending, origin[r], r.linkedCity)
    modifies records
    ensures forall r :: r in records ==> r.linkCode == old(r.linkCode)
    ensures ok <==> Resolvable(ls, keep, cityName)
    ensures ok ==> forall r :: r in records ==> Stage(ls, keep, pending - {cityName}, origin[r], r.linkedCity)
    ensures !ok ==> forall r :: r in records ==> r.linkedCity == old(r.linkedCity)
  {
    var cityStates := RankedCandidates(byCity, keep, cityName);
    var rank := RankBy(byCity, keep);
    assert forall c :: c in cityStates <==> c in Candidates(ls, cityName);
    assert cityStates != [] by {
      var c :| c in Candidates(ls, cityName);
      assert c in cityStates;
    }
    HeadDecides(ls, keep, cityName, cityStates, rank);
    if |cityStates| > 1 {
      var first := cityStates[0];
      var second := cityStates[1];
      if |byCity[first]| == |byCity[second]| {
        return false;
      }
      ghost var mid := map r | r in records :: r.linkedCity;
      CollapseOnto(records, byCity, cityStates[1..], first);
      forall r | r in records
        ensures Stage(ls, keep, pending - {cityName}, origin[r], r.linkedCity)
      {
        assert Moved(byCity, cityStates[1..], r) <==> origin[r].Some? && origin[r].value in cityStates[1..];
        StageStep(ls, keep, pending, cityName, cityStates, origin[r], mid[r], r.linkedCity);
      }
    } else {
      forall r | r in records
        ensures Stage(ls, keep, pending - {cityName}, origin[r], r.linkedCity)
      {
        StageStep(ls, keep, pending, cityName, cityStates, origin[r], r.linkedCity, r.linkedCity);
      }
    }
    return true;
  }

  /**
   * `normalizeInventor(records)` (lines 194-235) with the ranking `keep`.
   * `ok == false` is the `IllegalArgumentException` thrown on a tie: it is
   * returned exactly when some city name has no strictly best-ranked
   * candidate. Names are visited in an unspecified order and the ones
   * visited before the tie have already been collapsed: `unvisited` holds
   * the names the pass had not finished when it stopped, among them the one
   * that tied. Every record of a finished name is on its kept candidate and
   * every record of an unvisited name is untouched, so no name is ever left
   * half collapsed.
   */
  method Consolidate(records: seq<RawRecord>, keep: Keep) returns (ok: bool, ghost unvisited: set<string>)
    requires NamedWhenLinkedUS(records)
    modifies records
    ensures forall r :: r in records ==> r.linkCode == old(r.linkCode)
    ensures ok <==> forall n :: n in Names(old(Links(records))) ==> Resolvable(old(Links(records)), keep, n)
    ensures ok ==> forall r :: r in records ==> Normalized(old(Links(records)), keep, old(r.linkedCity), r.linkedCity)
    ensures !ok ==> forall r :: r in records ==>
              r.linkedCity == old(r.linkedCity) || Normalized(old(Links(records)), keep, old(r.linkedCity), r.linkedCity)
    ensures unvisited <= Names(old(Links(records)))
    ensures ok <==> unvisited == {}
    ensures !ok ==> exists n :: n in unvisited && !Resolvable(old(Links(records)), keep, n)
    ensures forall r :: r in records ==> Stage(old(Links(records)), keep, unvisited, old(r.linkedCity), r.linkedCity)
  {
    ghost var ls := Links(records);
    assert ls == old(Links(records));
    ghost var origin := map r | r in records :: r.linkedCity;
    assert forall r :: r in records ==> r in origin && origin[r] == old(r.linkedCity);
    var byCity, names := GroupRecords(records, origin);
    ghost var all := names;
    ok := true;
    while names != {} && ok
      invariant names <= all
      invariant !ok ==> exists n :: n in names && !Resolvable(ls, keep, n)
      invariant forall r :: r in records ==> r.linkCode == old(r.linkCode)
      invariant forall r :: r in records ==> Stage(ls, keep, names, origin[r], r.linkedCity)
      decreases names, ok
    {
      var cityName :| cityName in names;
      NamedHasCandidate(ls, cityName);
      ok := CollapseName(records, byCity, keep, cityName, ls, names, origin);
      if ok {
        names := names - {cityName};
      }
    }
    forall r | r in records
      ensures ok ==> Normalized(ls, keep, old(r.linkedCity), r.linkedCity)
      ensures r.linkedCity == old(r.linkedCity) || Normalized(ls, keep, old(r.linkedCity), r.linkedCity)
    {
      StageOutcome(ls, keep, names, ok, origin[r], r.linkedCity);
    }
    unvisited := names;
  }

  /** Once every name is visited a record is normalized; any earlier, it is normalized or untouched. */
  lemma StageOutcome(ls: seq<Option<CityRec>>, keep: Keep, pending: set<string>, finished: bool,
                     before: Option<CityRec>, now: Option<CityRec>)
    requires finished ==> pending == {}
    requires Stage(ls, keep, pending, before, now)
    ensures finished ==> Normalized(ls, keep, before, now)
    ensures now == before || Normalized(ls, keep, before, now)
  {
  }

  /**
   * Lines 197-207: the linked US records grouped by city, and the city
   * names among the groups.
   */
  method GroupRecords(records: seq<RawRecord>, ghost origin: map<RawRecord, Option<CityRec>>)
    returns (byCity: map<CityRec, seq<RawRecord>>, names: set<string>)
    requires NamedWhenLinkedUS(records)
    requires forall r :: r in records ==> r in origin && origin[r] == r.linkedCity
    ensures GroupedBy(records, byCity, Links(records), origin)
    ensures names == Names(Links(records))
  {
    byCity := GroupByLinked(records);
    GroupFacts(records, byCity, origin);
    names := set c | c in byCity && c.city.Some? :: c.city.value;
    NamesOfGroups(records, byCity);
  }

  /** The names the pass visits are the names of the linked US records. */
  lemma NamesOfGroups(records: seq<RawRecord>, byCity: map<CityRec, seq<RawRecord>>)
    requires NamedWhenLinkedUS(records) && IsGrouping(records, byCity)
    ensures (set c | c in byCity && c.city.Some? :: c.city.value) == Names(Links(records))
  {
    var ls := Links(records);
    GroupCandidates(records, byCity);
    forall n | n in Names(ls)
      ensures exists c :: c in byCity && c.city.Some? && c.city.value == n
    {
      var i :| 0 <= i < |ls| && LinkedUS(ls[i]) && ls[i].value.city.Some? && ls[i].value.city.value == n;
      assert ls[i].value in Candidates(ls, n);
    }
  }

  /** The grouping, taken in the state it was built in, satisfies `GroupedBy`. */
  lemma GroupFacts(records: seq<RawRecord>, byCity: map<CityRec, seq<RawRecord>>,
                    origin: map<RawRecord, Option<CityRec>>)
    requires NamedWhenLinkedUS(records) && IsGrouping(records, byCity)
    requires forall r :: r in records ==> r in origin && origin[r] == r.linkedCity
    ensures GroupedBy(records, byCity, Links(records), origin)
  {
    GroupCandidates(records, byCity);
    GroupSizes(records, byCity);
    GroupOrigins(records, byCity, origin);
  }

  lemma GroupSizes(records: seq<RawRecord>, byCity: map<CityRec, seq<RawRecord>>)
    requires IsGrouping(records, byCity)
    ensures forall c :: c in byCity ==> |byCity[c]| == Count(Links(records), c)
  {
    forall c | c in byCity
      ensures |byCity[c]| == Count(Links(records), c)
    {
      assert byCity[c] == LinkedTo(records, c);
    }
  }

  lemma GroupOrigins(records: seq<RawRecord>, byCity: map<CityRec, seq<RawRecord>>,
                     origin: map<RawRecord, Option<CityRec>>)
    requires IsGrouping(records, byCity)
    requires forall r :: r in records ==> r in origin && origin[r] == r.linkedCity
    ensures GroupsHoldOrigin(records, byCity, Links(records), origin)
  {
    forall c | c in byCity
      ensures forall i :: 0 <= i < |byCity[c]| ==> byCity[c][i] in records
    {
      assert byCity[c] == LinkedTo(records, c);
    }
    forall c, r | c in byCity && r in records
      ensures r in byCity[c] <==> origin[r] == Some(c)
    {
      assert byCity[c] == LinkedTo(records, c);
    }
    forall r | r in records
      ensures origin[r] in Links(records)
    {
      LinkIsListed(records, r);
    }
  }

  lemma LinkIsListed(records: seq<RawRecord>, r: RawRecord)
    requires r in records
    ensures r.linkedCity in Links(records)
  {
    var i :| 0 <= i < |records| && records[i] == r;
    assert Links(records)[i] == r.linkedCity;
  }

  /** The grouped cities of a name are exactly its candidates. */
  lemma GroupCandidates(records: seq<RawRecord>, byCity: map<CityRec, seq<RawRecord>>)
    requires NamedWhenLinkedUS(records) && IsGrouping(records, byCity)
    ensures GroupsAreCandidates(byCity, Links(records))
  {
    var ls := Links(records);
    GroupKeys(records, byCity);
    KeysAreCandidates(byCity, ls);
  }

  /** The keys of the grouping are the named US cities the links point to. */
  lemma GroupKeys(records: seq<RawRecord>, byCity: map<CityRec, seq<RawRecord>>)
    requires NamedWhenLinkedUS(records) && IsGrouping(records, byCity)
    ensures forall i :: 0 <= i < |Links(records)| && LinkedUS(Links(records)[i]) ==> Links(records)[i].value in byCity
    ensures forall c :: c in byCity ==> LinkedUS(Some(c)) && c.city.Some? && Some(c) in Links(records)
  {
    var ls := Links(records);
    forall i | 0 <= i < |ls| && LinkedUS(ls[i])
      ensures ls[i].value in byCity
    {
      assert records[i] in records && records[i].linkedCity == ls[i];
    }
    forall c | c in byCity
      ensures c.city.Some? && Some(c) in ls
    {
      var r := byCity[c][0];
      var i :| 0 <= i < |records| && records[i] == r;
      assert ls[i] == Some(c) && LinkedUS(ls[i]);
    }
  }

  /** On links alone: keys that are exactly the named US cities linked are the candidates of their names. */
  lemma KeysAreCandidates(byCity: map<CityRec, seq<RawRecord>>, ls: seq<Option<CityRec>>)
    requires forall i :: 0 <= i < |ls| && LinkedUS(ls[i]) ==> ls[i].value in byCity
    requires forall c :: c in byCity ==> LinkedUS(Some(c)) && c.city.Some? && Some(c) in ls
    ensures GroupsAreCandidates(byCity, ls)
  {
    forall c | c in byCity
      ensures c in Candidates(ls, c.city.value)
    {
      var i :| 0 <= i < |ls| && ls[i] == Some(c);
      assert LinkedUS(ls[i]) && ls[i].value.city == Some(c.city.value);
    }
  }

  // ----- the pass as written and as intended -----

  /** `normalizeInventor` as written: the comparator sorts ascending, so the least frequent candidate is kept. */
  method NormalizeInventor(records: seq<RawRecord>) returns (ok: bool, ghost unvisited: set<string>)
    requires NamedWhenLinkedUS(records)
    modifies records
    ensures forall r :: r in records ==> r.linkCode == old(r.linkCode)
    ensures ok <==> forall n :: n in Names(old(Links(records))) ==> Resolvable(old(Links(records)), LeastFrequent, n)
    ensures ok ==> forall r :: r in records ==> Normalized(old(Links(records)), LeastFrequent, old(r.linkedCity), r.linkedCity)
    ensures !ok ==> forall r :: r in records ==>
              r.linkedCity == old(r.linkedCity) || Normalized(old(Links(records)), LeastFrequent, old(r.linkedCity), r.linkedCity)
    ensures unvisited <= Names(old(Links(records)))
    ensures ok <==> unvisited == {}
    ensures !ok ==> exists n :: n in unvisited && !Resolvable(old(Links(records)), LeastFrequent, n)
    ensures forall r :: r in records ==> Stage(old(Links(records)), LeastFrequent, unvisited, old(r.linkedCity), r.linkedCity)
  {
    ok, unvisited := Consolidate(records, LeastFrequent);
  }

  /** `normalizeInventor` as its comment intends: the dominant state of a city name is kept. */
  method NormalizeInventorByMajority(records: seq<RawRecord>) returns (ok: bool, ghost unvisited: set<string>)
    requires NamedWhenLinkedUS(records)
    modifies records
    ensures forall r :: r in records ==> r.linkCode == old(r.linkCode)
    ensures ok <==> forall n :: n in Names(old(Links(records))) ==> Resolvable(old(Links(records)), MostFrequent, n)
    ensures ok ==> forall r :: r in records ==> Normalized(old(Links(records)), MostFrequent, old(r.linkedCity), r.linkedCity)
    ensures !ok ==> forall r :: r in records ==>
              r.linkedCity == old(r.linkedCity) || Normalized(old(Links(records)), MostFrequent, old(r.linkedCity), r.linkedCity)
    ensures unvisited <= Names(old(Links(records)))
    ensures ok <==> unvisited == {}
    ensures !ok ==> exists n :: n in unvisited && !Resolvable(old(Links(records)), MostFrequent, n)
    ensures forall r :: r in records ==> Stage(old(Links(records)), MostFrequent, unvisited, old(r.linkedCity), r.linkedCity)
  {
    ok, unvisited := Consolidate(records, MostFrequent);
  }

  /** A name has at most one kept candidate. */
  lemma KeptIsUnique(ls: seq<Option<CityRec>>, keep: Keep, name: string, t: CityRec, u: CityRec)
    requires IsKept(ls, keep, name, t) && IsKept(ls, keep, name, u)
    ensures t == u
  {
  }

  /**
   * With the intended ranking the kept candidate is the one linked by
   * strictly more records than any other candidate of its name, and only
   * that one.
   */
  lemma MajorityKeepsDominant(ls: seq<Option<CityRec>>, name: string, t: CityRec)
    ensures IsKept(ls, MostFrequent, name, t) <==>
      t in Candidates(ls, name) && forall c :: c in Candidates(ls, name) && c != t ==> Count(ls, c) < Count(ls, t)
  {
  }

  /** As written the kept candidate is the one linked by strictly fewer records than any other. */
  lemma AsWrittenKeepsRarest(ls: seq<Option<CityRec>>, name: string, t: CityRec)
    ensures IsKept(ls, LeastFrequent, name, t) <==>
      t in Candidates(ls, name) && forall c :: c in Candidates(ls, name) && c != t ==> Count(ls, c) > Count(ls, t)
  {
  }

  const Illinois := CityRec(Some("Springfield"), "", "IL", "US")
  const Ohio := CityRec(Some("Springfield"), "", "OH", "US")

  /** Three records of an inventor in Springfield, Illinois and one in Springfield, Ohio. */
  const MostlyIllinois: seq<Option<CityRec>> := [Some(Illinois), Some(Illinois), Some(Illinois), Some(Ohio)]

  lemma MostlyIllinoisFacts()
    ensures Candidates(MostlyIllinois, "Springfield") == {Illinois, Ohio}
    ensures Names(MostlyIllinois) == {"Springfield"}
    ensures Count(MostlyIllinois, Illinois) == 3 && Count(MostlyIllinois, Ohio) == 1
  {
    var ls := MostlyIllinois;
    assert ls[0] == Some(Illinois) && ls[3] == Some(Ohio);
    assert IsUS("US");
    CountFour(Some(Illinois), Some(Illinois), Some(Illinois), Some(Ohio), Illinois);
    CountFour(Some(Illinois), Some(Illinois), Some(Illinois), Some(Ohio), Ohio);
  }

  /** `Count` over a list of four links, one position at a time. */
  lemma CountFour(a: Option<CityRec>, b: Option<CityRec>, c: Option<CityRec>, d: Option<CityRec>, x: CityRec)
    ensures Count([a, b, c, d], x) ==
      (if a == Some(x) then 1 else 0) + (if b == Some(x) then 1 else 0) +
      (if c == Some(x) then 1 else 0) + (if d == Some(x) then 1 else 0)
  {
    assert [a, b, c, d] == [a] + ([b] + ([c] + ([d] + [])));
    CountCons(d, [], x);
    CountCons(c, [d], x);
    CountCons(b, [c, d], x);
    CountCons(a, [b, c, d], x);
  }

  lemma CountCons(y: Option<CityRec>, ls: seq<Option<CityRec>>, x: CityRec)
    ensures Count([y] + ls, x) == (if y == Some(x) then 1 else 0) + Count(ls, x)
  {
    assert ([y] + ls)[1..] == ls;
  }

  /**
   * The source as written keeps Ohio, the candidate with one record,
   * and the intended ranking keeps Illinois, the one with three.
   */
  lemma SpringfieldKeepsLeastFrequent()
    ensures IsKept(MostlyIllinois, LeastFrequent, "Springfield", Ohio)
    ensures !IsKept(MostlyIllinois, LeastFrequent, "Springfield", Illinois)
    ensures IsKept(MostlyIllinois, MostFrequent, "Springfield", Illinois)
  {
    MostlyIllinoisFacts();
    assert Illinois != Ohio;
  }

  /** Two candidates linked by as many records each: no ranking resolves the name. */
  lemma EvenSplitIsUnresolvable(ls: seq<Option<CityRec>>, keep: Keep, name: string, x: CityRec, y: CityRec)
    requires Candidates(ls, name) == {x, y} && x != y && Count(ls, x) == Count(ls, y)
    ensures !Resolvable(ls, keep, name)
  {
    forall t | t in Candidates(ls, name)
      ensures !IsKept(ls, keep, name, t)
    {
      var other := if t == x then y else x;
      assert other in Candidates(ls, name) && other != t;
    }
  }

  /** Two records in each state: the ranking ties whichever way it runs, and the pass throws. */
  lemma SpringfieldTie(keep: Keep)
    ensures !Resolvable([Some(Illinois), Some(Illinois), Some(Ohio), Some(Ohio)], keep, "Springfield")
  {
    var ls := [Some(Illinois), Some(Illinois), Some(Ohio), Some(Ohio)];
    assert IsUS("US");
    CountFour(Some(Illinois), Some(Illinois), Some(Ohio), Some(Ohio), Illinois);
    CountFour(Some(Illinois), Some(Illinois), Some(Ohio), Some(Ohio), Ohio);
    assert ls[0].value == Illinois && ls[2].value == Ohio;
    assert Candidates(ls, "Springfield") == {Illinois, Ohio};
    EvenSplitIsUnresolvable(ls, keep, "Springfield", Illinois, Ohio);
  }

  /** On the Springfield links, a record normalized as written ends on Ohio. */
  lemma EndsOnOhio(before: Option<CityRec>, after: Option<CityRec>)
    requires before == Some(Illinois) || before == Some(Ohio)
    requires Normalized(MostlyIllinois, LeastFrequent, before, after)
    ensures after == Some(Ohio)
  {
    assert IsUS("US");
    SpringfieldKeepsLeastFrequent();
    KeptIsUnique(MostlyIllinois, LeastFrequent, "Springfield", after.value, Ohio);
  }

  /**
   * The whole pass as written on an inventor whose records link three
   * times to Springfield, Illinois and once to Springfield, Ohio: it
   * succeeds and every record ends on Springfield, Ohio.
   */
  method SpringfieldAsWritten(records: seq<RawRecord>) returns (ok: bool)
    requires Links(records) == MostlyIllinois
    modifies records
    ensures ok && forall r :: r in records ==> r.linkedCity == Some(Ohio)
  {
    MostlyIllinoisFacts();
    SpringfieldKeepsLeastFrequent();
    assert forall i :: 0 <= i < |records| ==> records[i].linkedCity == MostlyIllinois[i];
    ghost var unvisited;
    ok, unvisited := NormalizeInventor(records);
    forall r | r in records
      ensures r.linkedCity == Some(Ohio)
    {
      var i :| 0 <= i < |records| && records[i] == r;
      EndsOnOhio(old(r.linkedCity), r.linkedCity);
    }
  }
}
