/** top_hiring_locations.py without its plot: the ten most frequent
    locations over the three tables, bare country names left out. */
module TopHiringLocations {
  import opened Outcomes
  import opened Series
  import opened Counting
  import opened Text
  import opened Datasets

  const TopN: nat := 10

  /** `pd.concat` of Indeed `location`, LinkedIn `job_location` and no-skills
      `location`, in that order. */
  function AllLocations(indeed: seq<IndeedRow>, historical: seq<HistoricalRow>, noSkills: seq<NoSkillsRow>): (r: seq<Cell>)
    ensures |r| == |indeed| + |historical| + |noSkills|
    ensures forall i :: 0 <= i < |indeed| ==> r[i] == indeed[i].location
    ensures forall i :: 0 <= i < |historical| ==> r[|indeed| + i] == historical[i].jobLocation
    ensures forall i :: 0 <= i < |noSkills| ==> r[|indeed| + |historical| + i] == noSkills[i].location
  {
    Project(indeed, (row: IndeedRow) => row.location) +
    Project(historical, (row: HistoricalRow) => row.jobLocation) +
    Project(noSkills, (row: NoSkillsRow) => row.location)
  }

  const CountryNames: seq<string> :=
    ["united states", "canada", "united kingdom", "australia", "germany", "france", "india", "china"]

  /** `all_locations.str.lower().isin(country_names)`: a whole-value match of
      the lowercased location; a null location is no country. */
  predicate IsCountry(location: Cell): (b: bool)
    ensures location.None? ==> !b
    ensures b ==> 5 <= |location.value| <= 14
  {
    location.Some? && Lower(location.value) in CountryNames
  }

  /** The mask `~...isin(country_names)`. */
  predicate NotCountry(location: Cell)
  {
    !IsCountry(location)
  }

  /** `all_locations[~...isin(country_names)]`. */
  function FilteredLocations(all: seq<Cell>): (r: seq<Cell>)
    ensures IsSubseq(r, all)
    ensures forall i :: 0 <= i < |r| ==> !IsCountry(r[i])
    ensures forall i :: 0 <= i < |all| && !IsCountry(all[i]) ==> all[i] in r
    ensures forall x :: !IsCountry(Some(x)) ==> Occ(r, Some(x)) == Occ(all, Some(x))
    ensures Occ(r, None) == Occ(all, None)
  {
    var keep := NotCountry;
    FilterIsSubseq(all, keep);
    forall x | !IsCountry(Some(x)) ensures Occ(Filter(all, keep), Some(x)) == Occ(all, Some(x)) {
      OccFilter(all, keep, Some(x));
    }
    OccFilter(all, keep, None);
    Filter(all, keep)
  }

  /** Only whole values are matched: a location longer than every country
      name, such as "Austin, United States", is kept even though it contains
      one. */
  lemma {:induction false} LongLocationKept(location: string)
    requires forall k :: 0 <= k < |CountryNames| ==> |CountryNames[k]| < |location|
    ensures !IsCountry(Some(location))
  {
    assert |Lower(location)| == |location|;
  }

  /** A country name is removed whatever its capitalisation, while a city and
      a missing location stay. */
  lemma LocationFilterExample()
    ensures FilteredLocations([Some("India"), Some("Pune"), Some("india"), None]) == [Some("Pune"), None]
  {
    var upper, city, lower, none: Cell := Some("India"), Some("Pune"), Some("india"), None;
    IndiaIsCountry();
    assert !IsCountry(city);
    var t3: seq<Cell> := [none];
    var t2 := [lower] + t3;
    var t1 := [city] + t2;
    assert [upper] + t1 == [upper, city, lower, none];
    FilterCons(upper, t1, NotCountry);
    FilterCons(city, t2, NotCountry);
    FilterCons(lower, t3, NotCountry);
    FilterCons(none, [], NotCountry);
    assert t3 == [none] + [];
    assert Filter(t3, NotCountry) == [none];
    assert Filter(t2, NotCountry) == [none];
    assert Filter(t1, NotCountry) == [city] + [none];
  }

  /** The lowercasing makes "India" a country name too. */
  lemma IndiaIsCountry()
    ensures IsCountry(Some("India")) && IsCountry(Some("india"))
  {
    assert CountryNames[6] == "india";
    var l := Lower("India");
    assert l[0] == LowerChar('I') == 'i';
    assert l == "india";
    assert Lower("india") == "india";
  }

  /** `filtered_locations.value_counts().head(10)`: counts are of the
      combined series, since the filter keeps every occurrence of a location
      that is no country; nulls are kept by the filter but never counted. */
  function TopLocations(indeed: seq<IndeedRow>, historical: seq<HistoricalRow>, noSkills: seq<NoSkillsRow>): (r: seq<Tally<string>>)
    ensures var all := AllLocations(indeed, historical, noSkills);
            && |r| <= TopN
            && NoDup(Keys(r))
            && (forall i :: 0 <= i < |r| ==>
                  !IsCountry(Some(r[i].key)) && r[i].count == Occ(all, Some(r[i].key)) && r[i].count >= 1)
            && (forall i, j :: 0 <= i < j < |r| ==> r[i].count >= r[j].count)
            && (forall x :: Some(x) in all && !IsCountry(Some(x)) && x !in Keys(r) ==>
                  |r| == TopN && Occ(all, Some(x)) <= r[TopN - 1].count)
  {
    var all := AllLocations(indeed, historical, noSkills);
    var filtered := FilteredLocations(all);
    var r := TopCounts(filtered, TopN);
    forall i | 0 <= i < |r| ensures !IsCountry(Some(r[i].key)) {
      var k :| 0 <= k < |filtered| && filtered[k] == Some(r[i].key);
    }
    r
  }
}
