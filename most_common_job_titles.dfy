/** most_common_job_titles.py without its plot: the ten most frequent job
    titles over the three tables. */
module MostCommonJobTitles {
  import opened Outcomes
  import opened Series
  import opened Counting
  import opened Datasets

  const TopN: nat := 10

  /** `pd.concat` of the Indeed `job_title`, the LinkedIn `job_title` and the
      no-skills `title` columns, in that order. */
  function AllJobTitles(indeed: seq<IndeedRow>, historical: seq<HistoricalRow>, noSkills: seq<NoSkillsRow>): (r: seq<Cell>)
    ensures |r| == |indeed| + |historical| + |noSkills|
    ensures forall i :: 0 <= i < |indeed| ==> r[i] == indeed[i].jobTitle
    ensures forall i :: 0 <= i < |historical| ==> r[|indeed| + i] == historical[i].jobTitle
    ensures forall i :: 0 <= i < |noSkills| ==> r[|indeed| + |historical| + i] == noSkills[i].title
  {
    Project(indeed, (row: IndeedRow) => row.jobTitle) +
    Project(historical, (row: HistoricalRow) => row.jobTitle) +
    Project(noSkills, (row: NoSkillsRow) => row.title)
  }

  /** `all_job_titles.value_counts().head(10)`. */
  function TopJobTitles(indeed: seq<IndeedRow>, historical: seq<HistoricalRow>, noSkills: seq<NoSkillsRow>): (r: seq<Tally<string>>)
    ensures var all := AllJobTitles(indeed, historical, noSkills);
            && |r| <= TopN
            && NoDup(Keys(r))
            && (forall i :: 0 <= i < |r| ==> r[i].count == Occ(all, Some(r[i].key)) && r[i].count >= 1)
            && (forall i, j :: 0 <= i < j < |r| ==> r[i].count >= r[j].count)
            && (forall x :: Some(x) in all && x !in Keys(r) ==> |r| == TopN && Occ(all, Some(x)) <= r[TopN - 1].count)
  {
    TopCounts(AllJobTitles(indeed, historical, noSkills), TopN)
  }

  /** A title's count over the combined series is the sum of its counts in
      the three tables. */
  lemma {:induction false} TitleCountBySource(indeed: seq<IndeedRow>, historical: seq<HistoricalRow>, noSkills: seq<NoSkillsRow>, title: string)
    ensures Occ(AllJobTitles(indeed, historical, noSkills), Some(title)) ==
              Occ(Project(indeed, (row: IndeedRow) => row.jobTitle), Some(title)) +
              Occ(Project(historical, (row: HistoricalRow) => row.jobTitle), Some(title)) +
              Occ(Project(noSkills, (row: NoSkillsRow) => row.title), Some(title))
  {
    var a := Project(indeed, (row: IndeedRow) => row.jobTitle);
    var b := Project(historical, (row: HistoricalRow) => row.jobTitle);
    var c := Project(noSkills, (row: NoSkillsRow) => row.title);
    OccConcat(a + b, c, Some(title));
    OccConcat(a, b, Some(title));
  }
}
