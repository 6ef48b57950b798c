/** clean_skills_plot.py without its TF-IDF ranking and plots: fill the
    Indeed skills, group Indeed rows by listing link, and clean the LinkedIn
    historical table. */
module CleanSkillsPlot {
  import opened Outcomes
  import opened Series
  import opened Sorting
  import opened Text
  import opened Datasets

  // ---------------------------------------------------------------- Indeed

  /** `indeed_data['skills'].fillna('')` on one row. */
  function FillRowSkills(row: IndeedRow): (r: IndeedRow)
    ensures r.skills.Some?
    ensures row.skills.Some? ==> r == row
    ensures row.skills.None? ==> r == row.(skills := Some(""))
  {
    if row.skills.Some? then row else row.(skills := Some(""))
  }

  function FillSkills(df: seq<IndeedRow>): (r: seq<IndeedRow>)
    ensures |r| == |df|
    ensures forall i :: 0 <= i < |df| ==> r[i] == FillRowSkills(df[i])
  {
    seq(|df|, i requires 0 <= i < |df| => FillRowSkills(df[i]))
  }

  /** One row of the grouped table (`as_index=False` keeps the key as a column). */
  datatype IndeedGroup = IndeedGroup(href: string, jobTitle: Cell, location: Cell, company: Cell, skills: string)

  function HrefIs(k: string): IndeedRow -> bool
  {
    (row: IndeedRow) => row.href == Some(k)
  }

  // The columns the aggregation reads.
  function TitleOf(row: IndeedRow): Cell { row.jobTitle }
  function LocationOf(row: IndeedRow): Cell { row.location }
  function CompanyOf(row: IndeedRow): Cell { row.company }
  function SkillsOf(row: IndeedRow): Cell { row.skills }

  /** `x.dropna()` for the skills of group `k`: its non-null skills strings,
      in input order. */
  function GroupSkills(rows: seq<IndeedRow>, k: string): (r: seq<string>)
    ensures forall i :: 0 <= i < |r| ==>
              exists j :: 0 <= j < |rows| && rows[j].href == Some(k) && rows[j].skills == Some(r[i])
    ensures forall j :: 0 <= j < |rows| && rows[j].href == Some(k) && rows[j].skills.Some? ==>
              rows[j].skills.value in r
    decreases |rows|
  {
    if rows == [] then []
    else
      var rest := GroupSkills(rows[1..], k);
      assert forall j :: 1 <= j < |rows| ==> rows[j] == rows[1..][j - 1];
      if rows[0].href == Some(k) && rows[0].skills.Some? then [rows[0].skills.value] + rest else rest
  }

  /** The group's skills are its skills column with nulls dropped: select the
      group's rows, take their skills, drop the nulls, all in row order. */
  lemma {:induction false} GroupSkillsColumn(rows: seq<IndeedRow>, k: string)
    ensures GroupSkills(rows, k) == NonNull(Project(Filter(rows, HrefIs(k)), SkillsOf))
    decreases |rows|
  {
    if rows != [] {
      var head, tail := rows[0], rows[1..];
      assert rows == [head] + tail;
      var kept := Filter(tail, HrefIs(k));
      GroupSkillsColumn(tail, k);
      FilterCons(head, tail, HrefIs(k));
      if head.href == Some(k) {
        calc {
          NonNull(Project(Filter(rows, HrefIs(k)), SkillsOf));
          == { assert Filter(rows, HrefIs(k)) == [head] + kept; }
          NonNull(Project([head] + kept, SkillsOf));
          == { ProjectCons(head, kept, SkillsOf); }
          NonNull([head.skills] + Project(kept, SkillsOf));
          == { NonNullCons(head.skills, Project(kept, SkillsOf)); }
          (match head.skills case Some(v) => [v] case None => []) + GroupSkills(tail, k);
        }
      } else {
        assert Filter(rows, HrefIs(k)) == kept;
      }
    }
  }

  /** `v` is what `first` gives for column `col` of group `k`: null when the
      column is null in every row of the group, and otherwise the value of
      the first row of the group where it is not null. */
  ghost predicate IsFirstOf(rows: seq<IndeedRow>, k: string, col: IndeedRow -> Cell, v: Cell)
  {
    && (v.None? <==> forall j :: 0 <= j < |rows| && rows[j].href == Some(k) ==> col(rows[j]).None?)
    && (v.Some? ==> exists j :: 0 <= j < |rows| && rows[j].href == Some(k) && col(rows[j]) == v &&
                      forall i :: 0 <= i < j && rows[i].href == Some(k) ==> col(rows[i]).None?)
  }

  /** The aggregate of group `k`: `first` (the first non-null value) for the
      scalar columns, and the distinct skills strings joined by ", ". */
  function GroupOf(rows: seq<IndeedRow>, k: string): (g: IndeedGroup)
    ensures g.href == k
    ensures IsFirstOf(rows, k, TitleOf, g.jobTitle)
    ensures IsFirstOf(rows, k, LocationOf, g.location)
    ensures IsFirstOf(rows, k, CompanyOf, g.company)
    ensures g.skills == Join(DropDuplicates(GroupSkills(rows, k)), SkillSeparator)
  {
    IndeedGroup(
      k,
      FirstWhere(rows, HrefIs(k), TitleOf),
      FirstWhere(rows, HrefIs(k), LocationOf),
      FirstWhere(rows, HrefIs(k), CompanyOf),
      Join(DropDuplicates(GroupSkills(rows, k)), SkillSeparator))
  }

  /** The group keys: the distinct non-null links, ascending (`groupby` sorts
      its keys and drops the null key). */
  function HrefKeys(rows: seq<IndeedRow>): (keys: seq<string>)
    ensures forall i, j :: 0 <= i < j < |keys| ==> StrLe(keys[i], keys[j]) && keys[i] != keys[j]
    ensures forall i :: 0 <= i < |keys| ==> exists j :: 0 <= j < |rows| && rows[j].href == Some(keys[i])
    ensures forall j :: 0 <= j < |rows| && rows[j].href.Some? ==> rows[j].href.value in keys
  {
    var hrefs := Project(rows, (row: IndeedRow) => row.href);
    var distinct := DropDuplicates(NonNull(hrefs));
    var keys := SortBy(distinct, StrLe);
    StrLeIsPreorder();
    SortBySorted(distinct, StrLe);
    SameElements(keys, distinct);
    assert forall i :: 0 <= i < |keys| ==> exists j :: 0 <= j < |rows| && rows[j].href == Some(keys[i]) by {
      forall i | 0 <= i < |keys| ensures exists j :: 0 <= j < |rows| && rows[j].href == Some(keys[i]) {
        assert keys[i] in distinct;
        assert Some(keys[i]) in hrefs;
        var j :| 0 <= j < |hrefs| && hrefs[j] == Some(keys[i]);
      }
    }
    assert forall j :: 0 <= j < |rows| && rows[j].href.Some? ==> rows[j].href.value in keys by {
      forall j | 0 <= j < |rows| && rows[j].href.Some? ensures rows[j].href.value in keys {
        assert hrefs[j] == rows[j].href;
        assert rows[j].href.value in NonNull(hrefs);
      }
    }
    keys
  }

  /** The aggregate of each key in turn. */
  function GroupsOf(rows: seq<IndeedRow>, keys: seq<string>): (r: seq<IndeedGroup>)
    ensures |r| == |keys|
    ensures forall i :: 0 <= i < |keys| ==> r[i] == GroupOf(rows, keys[i]) && r[i].href == keys[i]
    decreases |keys|
  {
    if keys == [] then [] else [GroupOf(rows, keys[0])] + GroupsOf(rows, keys[1..])
  }

  /** `groupby(['job_title-href'], as_index=False).agg(...)`: one row per
      distinct non-null link, in ascending link order, each the aggregate of
      its group. */
  function GroupByHref(rows: seq<IndeedRow>): (r: seq<IndeedGroup>)
    ensures forall i, j :: 0 <= i < j < |r| ==> StrLe(r[i].href, r[j].href) && r[i].href != r[j].href
    ensures forall i :: 0 <= i < |r| ==> r[i] == GroupOf(rows, r[i].href)
  {
    GroupsOf(rows, HrefKeys(rows))
  }

  /** The key column of the grouped table. */
  function Hrefs(groups: seq<IndeedGroup>): (hs: seq<string>)
    ensures |hs| == |groups|
    ensures forall i :: 0 <= i < |groups| ==> hs[i] == groups[i].href
  {
    seq(|groups|, i requires 0 <= i < |groups| => groups[i].href)
  }

  /** The groups are exactly the non-null links: each group's link is some
      row's, and each row with a link has its group. */
  lemma {:induction false} GroupByHrefKeys(rows: seq<IndeedRow>)
    ensures var hs := Hrefs(GroupByHref(rows));
            && (forall i :: 0 <= i < |hs| ==> exists j :: 0 <= j < |rows| && rows[j].href == Some(hs[i]))
            && (forall j :: 0 <= j < |rows| && rows[j].href.Some? ==> rows[j].href.value in hs)
  {
    GroupsOfHrefs(rows, HrefKeys(rows));
  }

  lemma {:induction false} GroupsOfHrefs(rows: seq<IndeedRow>, keys: seq<string>)
    ensures Hrefs(GroupsOf(rows, keys)) == keys
  {
    var r := GroupsOf(rows, keys);
    assert forall i :: 0 <= i < |r| ==> r[i].href == keys[i];
  }

  /** Splitting a group's skills string at ", " gives back its distinct skills
      strings whenever none of them contains ", " itself. De-duplication is of
      whole strings: "Python, SQL" and "SQL" are two values. */
  lemma {:induction false} GroupSkillsSplit(rows: seq<IndeedRow>, k: string)
    requires GroupSkills(rows, k) != []
    requires forall j :: 0 <= j < |rows| && rows[j].href == Some(k) && rows[j].skills.Some? ==>
               NoSeparator(rows[j].skills.value)
    ensures Split(GroupOf(rows, k).skills) == DropDuplicates(GroupSkills(rows, k))
  {
    var skills := GroupSkills(rows, k);
    var distinct := DropDuplicates(skills);
    assert skills[0] in distinct;
    forall p | 0 <= p < |distinct| ensures NoSeparator(distinct[p]) {
      assert distinct[p] in skills;
      var i :| 0 <= i < |skills| && skills[i] == distinct[p];
    }
    SplitJoin(distinct);
  }

  /** The skills of a group come in the order in which they first occur among
      the group's non-null skills strings (GroupSkillsColumn says those are in
      row order), when no skills string contains ", ". */
  lemma {:induction false} GroupSkillsFirstSeen(rows: seq<IndeedRow>, k: string)
    requires GroupSkills(rows, k) != []
    requires forall j :: 0 <= j < |rows| && rows[j].href == Some(k) && rows[j].skills.Some? ==>
               NoSeparator(rows[j].skills.value)
    ensures var column := GroupSkills(rows, k);
            var pieces := Split(GroupOf(rows, k).skills);
            && (forall i :: 0 <= i < |pieces| ==> pieces[i] in column)
            && (forall i, j :: 0 <= i < j < |pieces| ==> FirstIndex(column, pieces[i]) < FirstIndex(column, pieces[j]))
  {
    GroupSkillsSplit(rows, k);
    DropDuplicatesKeepsFirst(GroupSkills(rows, k));
  }

  /** A group whose rows all carry the same skills string gets that string
      unchanged. */
  lemma {:induction false} GroupSharedSkills(rows: seq<IndeedRow>, k: string, s: string)
    requires exists j :: 0 <= j < |rows| && rows[j].href == Some(k) && rows[j].skills.Some?
    requires forall j :: 0 <= j < |rows| && rows[j].href == Some(k) && rows[j].skills.Some? ==>
               rows[j].skills == Some(s)
    ensures GroupOf(rows, k).skills == s
  {
    var skills := GroupSkills(rows, k);
    var distinct := DropDuplicates(skills);
    var j :| 0 <= j < |rows| && rows[j].href == Some(k) && rows[j].skills.Some?;
    assert s in skills;
    assert s in distinct;
    forall p | 0 <= p < |distinct| ensures distinct[p] == s {
      assert distinct[p] in skills;
      var i :| 0 <= i < |skills| && skills[i] == distinct[p];
    }
    OccNoDup(distinct, s);
    OccConstant(distinct, s);
    assert distinct == [s];
  }

  // -------------------------------------------------------------- LinkedIn

  const NoSummary: string := "No summary available"

  /** `linkedin_data['job_summary'].fillna("No summary available")` on one row. */
  function FillRowSummary(row: HistoricalRow): (r: HistoricalRow)
    ensures r.jobSummary.Some?
    ensures row.jobSummary.Some? ==> r == row
    ensures row.jobSummary.None? ==> r == row.(jobSummary := Some(NoSummary))
  {
    if row.jobSummary.Some? then row else row.(jobSummary := Some(NoSummary))
  }

  function FillSummary(df: seq<HistoricalRow>): (r: seq<HistoricalRow>)
    ensures |r| == |df|
    ensures forall i :: 0 <= i < |df| ==> r[i] == FillRowSummary(df[i])
  {
    seq(|df|, i requires 0 <= i < |df| => FillRowSummary(df[i]))
  }

  /** Survives `dropna(subset=['job_title', 'company', 'job_skills'])`. */
  predicate HasCriticalFields(row: HistoricalRow)
  {
    row.jobTitle.Some? && row.company.Some? && row.jobSkills.Some?
  }

  /** Filling the summary after removing duplicates can leave two equal
      rows: one whose summary was null and one that already read
      "No summary available" both survive `drop_duplicates` and are equal
      once filled. */
  lemma {:induction false} FillAfterDedupCanDuplicate(a: HistoricalRow)
    requires a.jobSummary.None?
    ensures var df := [a, a.(jobSummary := Some(NoSummary))];
            DropDuplicates(df) == df && FillSummary(df)[0] == FillSummary(df)[1]
  {
    var df := [a, a.(jobSummary := Some(NoSummary))];
    assert df[..1] == [a];
    assert DropDuplicates([a]) == [a] by { assert [a][..0] == []; }
  }

  // ---------------------------------------------------------------- script

  /** The three tables the cleaning produces. */
  datatype CleanedTables = CleanedTables(
    indeedSaved: seq<IndeedRow>, indeedGrouped: seq<IndeedGroup>, linkedinSaved: seq<HistoricalRow>)

  /** How the TF-IDF ranking fails: `fit_transform` found no term outside the
      stop list, or a term index of the Indeed ranking lies past the end of
      the vocabulary refitted on LinkedIn. */
  datatype TfidfError = EmptyVocabulary | FeatureIndexOutOfRange

  // The two columns the TF-IDF ranking reads.
  function GroupSkillsCell(group: IndeedGroup): Cell { Some(group.skills) }
  function JobSkillsOf(row: HistoricalRow): Cell { row.jobSkills }

  /** The tables the cleaning produces: the filled Indeed table, its grouping,
      and the LinkedIn table de-duplicated, filled and stripped of rows missing
      a critical column. */
  function CleanTables(indeed: seq<IndeedRow>, linkedin: seq<HistoricalRow>): (t: CleanedTables)
    ensures |t.indeedSaved| == |indeed|
    ensures forall i :: 0 <= i < |indeed| ==> t.indeedSaved[i].skills.Some?
    ensures forall i :: 0 <= i < |indeed| ==>
              t.indeedSaved[i] == (if indeed[i].skills.Some? then indeed[i] else indeed[i].(skills := Some("")))
    ensures t.indeedGrouped == GroupByHref(t.indeedSaved)
    ensures forall i :: 0 <= i < |t.linkedinSaved| ==>
              HasCriticalFields(t.linkedinSaved[i]) && t.linkedinSaved[i].jobSummary.Some?
    ensures IsSubseq(t.linkedinSaved, FillSummary(DropDuplicates(linkedin)))
    ensures forall j :: 0 <= j < |linkedin| ==>
              (FillRowSummary(linkedin[j]) in t.linkedinSaved <==> HasCriticalFields(linkedin[j]))
    ensures |t.linkedinSaved| <= |linkedin|
  {
    var indeedData := FillSkills(indeed);                  // line 17
    var filled := FillSummary(DropDuplicates(linkedin));   // lines 29-30
    FilterIsSubseq(filled, HasCriticalFields);
    CleanedHistoricalRows(linkedin);
    CleanedTables(indeedData, GroupByHref(indeedData), Filter(filled, HasCriticalFields))  // lines 20-26, 31
  }

  /** The script's cleaning steps. It saves the ungrouped, filled Indeed table
      and the cleaned LinkedIn table; the grouped Indeed table feeds only the
      TF-IDF ranking, which runs before the saves, so when it raises nothing is
      saved. `vocabSize` gives the number of terms `fit_transform` keeps for a
      column of documents, 0 when it finds none and raises. The one vectorizer
      is fitted on Indeed, then refitted on LinkedIn, and the Indeed ranking's
      term indices (every index of the Indeed vocabulary, since it holds at
      most ten terms) are then looked up in the LinkedIn vocabulary. */
  method Clean(indeed: seq<IndeedRow>, linkedin: seq<HistoricalRow>, vocabSize: seq<Cell> -> nat)
    returns (r: Result<CleanedTables, TfidfError>)
    ensures var indeedTerms := vocabSize(Project(GroupByHref(FillSkills(indeed)), GroupSkillsCell));
            var linkedinTerms := vocabSize(Project(Filter(FillSummary(DropDuplicates(linkedin)), HasCriticalFields), JobSkillsOf));
            && (r == Err(EmptyVocabulary) <==> indeedTerms == 0 || linkedinTerms == 0)
            && (r == Err(FeatureIndexOutOfRange) <==> 0 < linkedinTerms < indeedTerms)
            && (r.Ok? <==> 0 < indeedTerms <= linkedinTerms)
    ensures r.Ok? ==> r.value == CleanTables(indeed, linkedin)
    ensures r.Ok? ==>
              && r.value.linkedinSaved == Filter(FillSummary(DropDuplicates(linkedin)), HasCriticalFields)
              && r.value.indeedSaved == FillSkills(indeed)
  {
    var tables := CleanTables(indeed, linkedin);
    var indeedTerms := vocabSize(Project(tables.indeedGrouped, GroupSkillsCell));   // line 47
    if indeedTerms == 0 {
      return Err(EmptyVocabulary);
    }
    var linkedinTerms := vocabSize(Project(tables.linkedinSaved, JobSkillsOf));     // line 50
    if linkedinTerms == 0 {
      return Err(EmptyVocabulary);
    }
    if linkedinTerms < indeedTerms {                                                // lines 55, 58
      return Err(FeatureIndexOutOfRange);
    }
    r := Ok(tables);                                                                // lines 86-87
  }

  /** An input row survives the LinkedIn cleaning, filled, exactly when its
      critical columns are present. */
  lemma {:induction false} CleanedHistoricalRows(linkedin: seq<HistoricalRow>)
    ensures var cleaned := Filter(FillSummary(DropDuplicates(linkedin)), HasCriticalFields);
            forall j :: 0 <= j < |linkedin| ==>
              (FillRowSummary(linkedin[j]) in cleaned <==> HasCriticalFields(linkedin[j]))
  {
    var deduped := DropDuplicates(linkedin);
    var filled := FillSummary(deduped);
    forall j | 0 <= j < |linkedin|
      ensures FillRowSummary(linkedin[j]) in Filter(filled, HasCriticalFields) <==> HasCriticalFields(linkedin[j])
    {
      assert linkedin[j] in deduped;
      var p :| 0 <= p < |deduped| && deduped[p] == linkedin[j];
      assert filled[p] == FillRowSummary(linkedin[j]);
    }
  }
}
