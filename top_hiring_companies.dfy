/** top_hiring_companies.py without its plot: the ten companies with the
    most postings over the three tables. */
module TopHiringCompanies {
  import opened Outcomes
  import opened Series
  import opened Counting
  import opened Datasets

  const TopN: nat := 10

  /** `pd.concat` of the three `company` columns: Indeed, LinkedIn, no-skills. */
  function AllCompanies(indeed: seq<IndeedRow>, historical: seq<HistoricalRow>, noSkills: seq<NoSkillsRow>): (r: seq<Cell>)
    ensures |r| == |indeed| + |historical| + |noSkills|
    ensures forall i :: 0 <= i < |indeed| ==> r[i] == indeed[i].company
    ensures forall i :: 0 <= i < |historical| ==> r[|indeed| + i] == historical[i].company
    ensures forall i :: 0 <= i < |noSkills| ==> r[|indeed| + |historical| + i] == noSkills[i].company
  {
    Project(indeed, (row: IndeedRow) => row.company) +
    Project(historical, (row: HistoricalRow) => row.company) +
    Project(noSkills, (row: NoSkillsRow) => row.company)
  }

  /** `all_companies.value_counts().head(10)`. */
  function TopCompanies(indeed: seq<IndeedRow>, historical: seq<HistoricalRow>, noSkills: seq<NoSkillsRow>): (r: seq<Tally<string>>)
    ensures var all := AllCompanies(indeed, historical, noSkills);
            && |r| <= TopN
            && NoDup(Keys(r))
            && (forall i :: 0 <= i < |r| ==> r[i].count == Occ(all, Some(r[i].key)) && r[i].count >= 1)
            && (forall i, j :: 0 <= i < j < |r| ==> r[i].count >= r[j].count)
            && (forall x :: Some(x) in all && x !in Keys(r) ==> |r| == TopN && Occ(all, Some(x)) <= r[TopN - 1].count)
  {
    TopCounts(AllCompanies(indeed, historical, noSkills), TopN)
  }

  /** A company's count over the combined series is the sum of its counts in
      the three tables. */
  lemma {:induction false} CompanyCountBySource(indeed: seq<IndeedRow>, historical: seq<HistoricalRow>, noSkills: seq<NoSkillsRow>, company: string)
    ensures Occ(AllCompanies(indeed, historical, noSkills), Some(company)) ==
              Occ(Project(indeed, (row: IndeedRow) => row.company), Some(company)) +
              Occ(Project(historical, (row: HistoricalRow) => row.company), Some(company)) +
              Occ(Project(noSkills, (row: NoSkillsRow) => row.company), Some(company))
  {
    var a := Project(indeed, (row: IndeedRow) => row.company);
    var b := Project(historical, (row: HistoricalRow) => row.company);
    var c := Project(noSkills, (row: NoSkillsRow) => row.company);
    OccConcat(a + b, c, Some(company));
    OccConcat(a, b, Some(company));
  }
}
