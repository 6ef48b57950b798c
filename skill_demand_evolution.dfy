/** skill_demand_evolution.py: count skills in the recent (Indeed) and the
    historical (LinkedIn) tables, merge the two frequency tables, compute the
    percentage change per skill and pick the ten fastest-rising skills. */
module SkillDemandEvolution {
  import opened Outcomes
  import opened Series
  import opened Sorting
  import opened Counting
  import opened Text
  import opened Datasets

  // -------------------------------------------------------- extract_skills

  /** Every piece of `entries`, in order: each entry lowercased and split at
      ", ". */
  function SkillTokens(entries: seq<string>): (tokens: seq<string>)
    ensures forall k :: 0 <= k < |tokens| ==> NoSeparator(tokens[k])
    decreases |entries|
  {
    if entries == [] then []
    else SkillTokens(entries[..|entries| - 1]) + Split(Lower(entries[|entries| - 1]))
  }

  /** Every token is a piece of one of the entries. */
  lemma {:induction false} SkillTokensFromEntries(entries: seq<string>)
    ensures forall k :: 0 <= k < |SkillTokens(entries)| ==>
              exists i :: 0 <= i < |entries| && SkillTokens(entries)[k] in Split(Lower(entries[i]))
    decreases |entries|
  {
    if entries != [] {
      var init := entries[..|entries| - 1];
      var pieces := Split(Lower(entries[|entries| - 1]));
      var tokens := SkillTokens(entries);
      assert tokens == SkillTokens(init) + pieces;
      SkillTokensFromEntries(init);
      forall k | 0 <= k < |tokens|
        ensures exists i :: 0 <= i < |entries| && tokens[k] in Split(Lower(entries[i]))
      {
        if k < |SkillTokens(init)| {
          var i :| 0 <= i < |init| && tokens[k] in Split(Lower(init[i]));
          assert init[i] == entries[i];
          assert tokens[k] in Split(Lower(entries[i]));
        } else {
          assert tokens[k] == pieces[k - |SkillTokens(init)|];
          assert tokens[k] in Split(Lower(entries[|entries| - 1]));
        }
      }
    } else {
      assert SkillTokens(entries) == [];
    }
  }

  /** Each token occurs as often as it occurs, summed over the entries' pieces. */
  lemma {:induction false} OccSkillTokens(a: seq<string>, b: seq<string>, t: string)
    ensures Occ(SkillTokens(a + b), t) == Occ(SkillTokens(a), t) + Occ(SkillTokens(b), t)
    decreases |b|
  {
    if b == [] {
      assert a + b == a;
    } else {
      var bInit := b[..|b| - 1];
      var last := b[|b| - 1];
      assert (a + b)[..|a + b| - 1] == a + bInit;
      assert (a + b)[|a + b| - 1] == last;
      OccSkillTokens(a, bInit, t);
      OccConcat(SkillTokens(a + bInit), Split(Lower(last)), t);
      OccConcat(SkillTokens(bInit), Split(Lower(last)), t);
    }
  }

  /** `extract_skills`: the loop gathers the pieces of every non-null entry,
      then `value_counts` counts them. */
  method ExtractSkills(column: seq<Cell>) returns (counts: seq<Tally<string>>)
    ensures counts == ValueCounts(SkillTokens(NonNull(column)))
    ensures CountsOf(counts, SkillTokens(NonNull(column)))
    ensures forall i :: 0 <= i < |counts| ==> NoSeparator(counts[i].key)
  {
    var entries := NonNull(column);
    var allSkills: seq<string> := [];
    var i := 0;
    while i < |entries|
      invariant 0 <= i <= |entries|
      invariant allSkills == SkillTokens(entries[..i])
    {
      SkillTokensStep(entries, i);
      allSkills := allSkills + Split(Lower(entries[i]));
      i := i + 1;
    }
    assert entries[..|entries|] == entries;
    counts := ValueCounts(allSkills);
    KeysFromTokens(counts, allSkills);
  }

  /** One more entry adds its pieces at the end. */
  lemma {:induction false} SkillTokensStep(entries: seq<string>, i: nat)
    requires i < |entries|
    ensures SkillTokens(entries[..i + 1]) == SkillTokens(entries[..i]) + Split(Lower(entries[i]))
  {
    assert entries[..i + 1][..i] == entries[..i];
  }

  lemma {:induction false} KeysFromTokens(counts: seq<Tally<string>>, tokens: seq<string>)
    requires CountsOf(counts, tokens)
    requires forall k :: 0 <= k < |tokens| ==> NoSeparator(tokens[k])
    ensures forall i :: 0 <= i < |counts| ==> NoSeparator(counts[i].key)
  {
    forall i | 0 <= i < |counts| ensures NoSeparator(counts[i].key) {
      var p :| 0 <= p < |tokens| && tokens[p] == counts[i].key;
    }
  }

  // ------------------------------------------------------------- the merge

  /** The count of `k` in a frequency table, 0 when it is absent (`fillna(0)`). */
  function CountOf<T(==)>(t: seq<Tally<T>>, k: T): nat
    decreases |t|
  {
    if t == [] then 0 else if t[0].key == k then t[0].count else CountOf(t[1..], k)
  }

  /** Looking a value up in the frequency table of `s` gives its number of
      occurrences in `s`, which is 0 for a value not in `s`. */
  lemma {:induction false} CountOfCounts<T>(t: seq<Tally<T>>, s: seq<T>, k: T)
    requires CountsOf(t, s)
    ensures CountOf(t, k) == Occ(s, k)
  {
    if k in Keys(t) {
      var p :| 0 <= p < |t| && Keys(t)[p] == k;
      CountOfAt(t, p);
    } else {
      CountOfAbsent(t, k);
      assert forall q :: 0 <= q < |s| ==> s[q] != k;
    }
  }

  lemma {:induction false} CountOfAt<T>(t: seq<Tally<T>>, p: nat)
    requires p < |t|
    requires NoDup(Keys(t))
    ensures CountOf(t, t[p].key) == t[p].count
    decreases p
  {
    if p > 0 {
      assert Keys(t)[0] != Keys(t)[p];
      assert Keys(t[1..]) == Keys(t)[1..];
      CountOfAt(t[1..], p - 1);
    }
  }

  lemma {:induction false} CountOfAbsent<T>(t: seq<Tally<T>>, k: T)
    requires k !in Keys(t)
    ensures CountOf(t, k) == 0
    decreases |t|
  {
    if t != [] {
      assert Keys(t)[0] == t[0].key;
      assert Keys(t[1..]) == Keys(t)[1..];
      CountOfAbsent(t[1..], k);
    }
  }

  /** The row index of `pd.DataFrame({...: historical, ...: recent})`: the
      union of the two indexes. Pandas keeps the index as it is when the two
      are equal, and otherwise lists the distinct values of both in ascending
      order. */
  function MergedSkills(historical: seq<string>, recent: seq<string>): (r: seq<string>)
    ensures forall i :: 0 <= i < |r| ==> r[i] in historical || r[i] in recent
    ensures forall i :: 0 <= i < |historical| ==> historical[i] in r
    ensures forall i :: 0 <= i < |recent| ==> recent[i] in r
    ensures NoDup(historical) && NoDup(recent) ==> NoDup(r)
    ensures historical == recent ==> r == historical
    ensures historical != recent ==>
              forall i, j :: 0 <= i < j < |r| ==> StrLe(r[i], r[j]) && r[i] != r[j]
  {
    if historical == recent then historical
    else
      var union := DropDuplicates(historical + recent);
      var r := SortBy(union, StrLe);
      StrLeIsPreorder();
      SortBySorted(union, StrLe);
      SameElements(r, union);
      assert forall i :: 0 <= i < |r| ==> r[i] in historical || r[i] in recent by {
        forall i | 0 <= i < |r| ensures r[i] in historical || r[i] in recent {
          assert r[i] in union;
          var j :| 0 <= j < |union| && union[j] == r[i];
          assert r[i] in historical + recent;
        }
      }
      assert forall i :: 0 <= i < |historical| ==> historical[i] in r by {
        forall i | 0 <= i < |historical| ensures historical[i] in r {
          assert (historical + recent)[i] == historical[i];
        }
      }
      assert forall i :: 0 <= i < |recent| ==> recent[i] in r by {
        forall i | 0 <= i < |recent| ensures recent[i] in r {
          assert (historical + recent)[|historical| + i] == recent[i];
        }
      }
      r
  }

  /** A row of `skill_trends` before the percentage change is added. */
  datatype SkillCounts = SkillCounts(skill: string, historical: nat, recent: nat)

  /** A row of `skill_trends`. */
  datatype SkillTrend = SkillTrend(skill: string, historical: nat, recent: nat, pctChange: real)

  /** The index label of a merged row and of a trends row. */
  function SkillOf(row: SkillCounts): string { row.skill }
  function TrendSkillOf(row: SkillTrend): string { row.skill }

  function CountsFor(skills: seq<string>, historical: seq<Tally<string>>, recent: seq<Tally<string>>): (r: seq<SkillCounts>)
    ensures |r| == |skills|
    ensures forall i :: 0 <= i < |skills| ==>
              r[i] == SkillCounts(skills[i], CountOf(historical, skills[i]), CountOf(recent, skills[i]))
    ensures Project(r, SkillOf) == skills
    decreases |skills|
  {
    if skills == [] then []
    else [SkillCounts(skills[0], CountOf(historical, skills[0]), CountOf(recent, skills[0]))] +
         CountsFor(skills[1..], historical, recent)
  }

  /** The merged table of two frequency tables: one row per skill of either,
      each with its count in both, 0 where it is missing. */
  function MergeCounts(historical: seq<Tally<string>>, recent: seq<Tally<string>>): (r: seq<SkillCounts>)
    ensures forall i :: 0 <= i < |r| ==> r[i].skill in Keys(historical) || r[i].skill in Keys(recent)
    ensures forall i :: 0 <= i < |historical| ==> historical[i].key in Project(r, SkillOf)
    ensures forall i :: 0 <= i < |recent| ==> recent[i].key in Project(r, SkillOf)
    ensures NoDup(Keys(historical)) && NoDup(Keys(recent)) ==> NoDup(Project(r, SkillOf))
    ensures forall i :: 0 <= i < |r| ==>
              r[i].historical == CountOf(historical, r[i].skill) && r[i].recent == CountOf(recent, r[i].skill)
  {
    var skills := MergedSkills(Keys(historical), Keys(recent));
    CountsFor(skills, historical, recent)
  }

  // ------------------------------------------------------------ % Change

  /** `(recent - historical) / historical.replace(0, 1) * 100`. */
  function PctChange(historical: nat, recent: nat): (p: real)
    ensures p >= -100.0
    ensures p > 0.0 <==> recent > historical
    ensures p < 0.0 <==> recent < historical
    ensures p == 0.0 <==> recent == historical
    ensures historical == 0 ==> p == 100.0 * recent as real
  {
    var denominator := if historical == 0 then 1 else historical;
    var p := ((recent - historical) as real / denominator as real) * 100.0;
    assert (recent - historical) as real >= -(denominator as real);
    assert (recent - historical) as real / denominator as real >= -1.0;
    p
  }

  /** `skill_trends['% Change'] = ...`: a column is added, the index and the
      counts stay. */
  function AddPctChange(rows: seq<SkillCounts>): (r: seq<SkillTrend>)
    ensures |r| == |rows|
    ensures Project(r, TrendSkillOf) == Project(rows, SkillOf)
    ensures forall i :: 0 <= i < |rows| ==>
              r[i] == SkillTrend(rows[i].skill, rows[i].historical, rows[i].recent,
                                 PctChange(rows[i].historical, rows[i].recent))
  {
    seq(|rows|, i requires 0 <= i < |rows| =>
      SkillTrend(rows[i].skill, rows[i].historical, rows[i].recent, PctChange(rows[i].historical, rows[i].recent)))
  }

  // -------------------------------------------------------- rising skills

  /** `sort_values('% Change', ascending=False)`'s order; ties in no
      promised order. */
  predicate HigherChange(a: SkillTrend, b: SkillTrend)
  {
    a.pctChange >= b.pctChange
  }

  lemma HigherChangeIsPreorder()
    ensures TotalPreorder(HigherChange)
  {
  }

  const RisingCount: nat := 10

  /** `sort_values('% Change', ascending=False).head(10)`: at most ten rows of
      the table, in non-increasing `% Change`, and no row left out has a
      larger change than the last one kept. */
  function RisingSkills(trends: seq<SkillTrend>): (r: seq<SkillTrend>)
    ensures |r| == if |trends| < RisingCount then |trends| else RisingCount
    ensures multiset(r) <= multiset(trends)
    ensures forall i, j :: 0 <= i < j < |r| ==> r[i].pctChange >= r[j].pctChange
    ensures forall i :: 0 <= i < |trends| && trends[i] !in r ==>
              |r| == RisingCount && trends[i].pctChange <= r[RisingCount - 1].pctChange
  {
    var sorted := SortBy(trends, HigherChange);
    HigherChangeIsPreorder();
    SortBySorted(trends, HigherChange);
    HeadOfSorted(trends, sorted, RisingCount);
    Head(sorted, RisingCount)
  }

  /** The first `n` rows of a rearrangement of `trends` sorted by falling
      change leave out no row with a larger change than the last one kept. */
  lemma {:induction false} HeadOfSorted(trends: seq<SkillTrend>, sorted: seq<SkillTrend>, n: nat)
    requires n > 0
    requires multiset(sorted) == multiset(trends)
    requires SortedBy(sorted, HigherChange)
    ensures multiset(Head(sorted, n)) <= multiset(trends)
    ensures forall i :: 0 <= i < |trends| && trends[i] !in Head(sorted, n) ==>
              |Head(sorted, n)| == n && trends[i].pctChange <= sorted[n - 1].pctChange
  {
    HeadMultiset(sorted, n);
    forall i | 0 <= i < |trends| && trends[i] !in Head(sorted, n)
      ensures |Head(sorted, n)| == n && trends[i].pctChange <= sorted[n - 1].pctChange
    {
      LeftOut(trends, sorted, n, trends[i]);
    }
  }

  lemma {:induction false} LeftOut(trends: seq<SkillTrend>, sorted: seq<SkillTrend>, n: nat, row: SkillTrend)
    requires multiset(sorted) == multiset(trends)
    requires SortedBy(sorted, HigherChange)
    requires n > 0
    requires row in trends && row !in Head(sorted, n)
    ensures |Head(sorted, n)| == n && row.pctChange <= sorted[n - 1].pctChange
  {
    assert row in multiset(trends);
    assert row in multiset(sorted);
    var p :| 0 <= p < |sorted| && sorted[p] == row;
    var r := Head(sorted, n);
    assert p >= |r| by {
      assert forall q :: 0 <= q < |r| ==> r[q] == sorted[q];
    }
    assert HigherChange(sorted[n - 1], sorted[p]);
  }

  /** `rising_skills.index.str.replace(r'\s*\(required\)', '', regex=True).str.strip()`:
      only the labels change. */
  function CleanLabels(rows: seq<SkillTrend>): (r: seq<SkillTrend>)
    ensures |r| == |rows|
    ensures forall i :: 0 <= i < |rows| ==>
              r[i] == rows[i].(skill := CleanLabel(rows[i].skill))
  {
    seq(|rows|, i requires 0 <= i < |rows| => rows[i].(skill := CleanLabel(rows[i].skill)))
  }

  // ---------------------------------------------------------------- script

  /** Merging the frequency tables of two token lists gives, per skill, its
      occurrences in each list, at least one of them non-zero. */
  lemma {:induction false} MergedCountsAreOccurrences(hTokens: seq<string>, rTokens: seq<string>,
                                   hCounts: seq<Tally<string>>, rCounts: seq<Tally<string>>)
    requires CountsOf(hCounts, hTokens) && CountsOf(rCounts, rTokens)
    ensures var merged := MergeCounts(hCounts, rCounts);
            forall i :: 0 <= i < |merged| ==>
              && merged[i].historical == Occ(hTokens, merged[i].skill)
              && merged[i].recent == Occ(rTokens, merged[i].skill)
              && (merged[i].historical >= 1 || merged[i].recent >= 1)
  {
    var merged := MergeCounts(hCounts, rCounts);
    forall i | 0 <= i < |merged|
      ensures merged[i].historical == Occ(hTokens, merged[i].skill)
      ensures merged[i].recent == Occ(rTokens, merged[i].skill)
      ensures merged[i].historical >= 1 || merged[i].recent >= 1
    {
      MergedRowOccurrences(hTokens, rTokens, hCounts, rCounts, merged[i]);
    }
  }

  /** One row of the merge: the counts it holds are occurrences in the token
      lists, and its skill occurs in at least one of them. */
  lemma {:induction false} MergedRowOccurrences(hTokens: seq<string>, rTokens: seq<string>,
                                                hCounts: seq<Tally<string>>, rCounts: seq<Tally<string>>,
                                                row: SkillCounts)
    requires CountsOf(hCounts, hTokens) && CountsOf(rCounts, rTokens)
    requires row.skill in Keys(hCounts) || row.skill in Keys(rCounts)
    requires row.historical == CountOf(hCounts, row.skill) && row.recent == CountOf(rCounts, row.skill)
    ensures row.historical == Occ(hTokens, row.skill) && row.recent == Occ(rTokens, row.skill)
    ensures row.historical >= 1 || row.recent >= 1
  {
    CountOfCounts(hCounts, hTokens, row.skill);
    CountOfCounts(rCounts, rTokens, row.skill);
    if row.skill in Keys(hCounts) {
      var p :| 0 <= p < |hCounts| && Keys(hCounts)[p] == row.skill;
      assert hCounts[p].count >= 1;
    } else {
      var p :| 0 <= p < |rCounts| && Keys(rCounts)[p] == row.skill;
      assert rCounts[p].count >= 1;
    }
  }

  /** Every token of a list has a row in the merge of its frequency table
      with any other. */
  lemma {:induction false} MergedCoversTokens(tokens: seq<string>, counts: seq<Tally<string>>, merged: seq<SkillCounts>)
    requires CountsOf(counts, tokens)
    requires forall i :: 0 <= i < |counts| ==> counts[i].key in Project(merged, SkillOf)
    ensures forall k :: 0 <= k < |tokens| ==> tokens[k] in Project(merged, SkillOf)
  {
    forall k | 0 <= k < |tokens| ensures tokens[k] in Project(merged, SkillOf) {
      var p :| 0 <= p < |counts| && Keys(counts)[p] == tokens[k];
    }
  }

  /** The saved skill_demand_trends table of two skills columns. */
  function Trends(indeedSkills: seq<Cell>, linkedinSkills: seq<Cell>): (r: seq<SkillTrend>)
    ensures forall i :: 0 <= i < |r| ==> r[i].pctChange == PctChange(r[i].historical, r[i].recent)
  {
    AddPctChange(MergeCounts(ValueCounts(SkillTokens(NonNull(linkedinSkills))),
                             ValueCounts(SkillTokens(NonNull(indeedSkills)))))
  }

  /** Adding the percentage change keeps each row's counts. */
  lemma {:induction false} AddPctChangeKeepsCounts(merged: seq<SkillCounts>, hTokens: seq<string>, rTokens: seq<string>)
    requires forall i :: 0 <= i < |merged| ==>
               && merged[i].historical == Occ(hTokens, merged[i].skill)
               && merged[i].recent == Occ(rTokens, merged[i].skill)
               && (merged[i].historical >= 1 || merged[i].recent >= 1)
    ensures var trends := AddPctChange(merged);
            forall i :: 0 <= i < |trends| ==>
              && trends[i].historical == Occ(hTokens, trends[i].skill)
              && trends[i].recent == Occ(rTokens, trends[i].skill)
              && trends[i].pctChange == PctChange(trends[i].historical, trends[i].recent)
              && (trends[i].historical >= 1 || trends[i].recent >= 1)
  {
    var trends := AddPctChange(merged);
    forall i | 0 <= i < |trends|
      ensures trends[i].skill == merged[i].skill
      ensures trends[i].historical == merged[i].historical && trends[i].recent == merged[i].recent
      ensures trends[i].pctChange == PctChange(trends[i].historical, trends[i].recent)
    {
    }
  }

  /** The trends table of two token lists: per skill, its occurrences in each
      list, at least one of them non-zero, and the percentage change. */
  lemma {:induction false} TokenTrendsCounts(hTokens: seq<string>, rTokens: seq<string>)
    ensures var trends := AddPctChange(MergeCounts(ValueCounts(hTokens), ValueCounts(rTokens)));
            forall i :: 0 <= i < |trends| ==>
              && trends[i].historical == Occ(hTokens, trends[i].skill)
              && trends[i].recent == Occ(rTokens, trends[i].skill)
              && trends[i].pctChange == PctChange(trends[i].historical, trends[i].recent)
              && (trends[i].historical >= 1 || trends[i].recent >= 1)
  {
    var hCounts, rCounts := ValueCounts(hTokens), ValueCounts(rTokens);
    MergedCountsAreOccurrences(hTokens, rTokens, hCounts, rCounts);
    AddPctChangeKeepsCounts(MergeCounts(hCounts, rCounts), hTokens, rTokens);
  }

  /** Each row of the trends table holds its skill's occurrences among the
      historical and the recent tokens, at least one of them non-zero, and
      the percentage change between the two. */
  lemma {:induction false} TrendsCounts(indeedSkills: seq<Cell>, linkedinSkills: seq<Cell>)
    ensures var trends := Trends(indeedSkills, linkedinSkills);
            forall i :: 0 <= i < |trends| ==>
              && trends[i].historical == Occ(SkillTokens(NonNull(linkedinSkills)), trends[i].skill)
              && trends[i].recent == Occ(SkillTokens(NonNull(indeedSkills)), trends[i].skill)
              && trends[i].pctChange == PctChange(trends[i].historical, trends[i].recent)
              && (trends[i].historical >= 1 || trends[i].recent >= 1)
  {
    TokenTrendsCounts(SkillTokens(NonNull(linkedinSkills)), SkillTokens(NonNull(indeedSkills)));
  }

  /** The trends table has exactly one row per skill token of either column. */
  lemma {:induction false} TrendsCoverTokens(indeedSkills: seq<Cell>, linkedinSkills: seq<Cell>)
    ensures var skills := Project(Trends(indeedSkills, linkedinSkills), TrendSkillOf);
            && NoDup(skills)
            && (forall k :: 0 <= k < |SkillTokens(NonNull(linkedinSkills))| ==>
                  SkillTokens(NonNull(linkedinSkills))[k] in skills)
            && (forall k :: 0 <= k < |SkillTokens(NonNull(indeedSkills))| ==>
                  SkillTokens(NonNull(indeedSkills))[k] in skills)
  {
    var historicalTokens := SkillTokens(NonNull(linkedinSkills));
    var recentTokens := SkillTokens(NonNull(indeedSkills));
    var merged := MergeCounts(ValueCounts(historicalTokens), ValueCounts(recentTokens));
    MergedCoversTokens(historicalTokens, ValueCounts(historicalTokens), merged);
    MergedCoversTokens(recentTokens, ValueCounts(recentTokens), merged);
  }

  /** The script: `trends` is the saved skill_demand_trends table and
      `rising` the saved top_rising_skills table. */
  method Evolution(indeedSkills: seq<Cell>, linkedinSkills: seq<Cell>)
    returns (trends: seq<SkillTrend>, rising: seq<SkillTrend>)
    ensures trends == Trends(indeedSkills, linkedinSkills)
    ensures rising == CleanLabels(RisingSkills(trends))
  {
    var indeedCounts := ExtractSkills(indeedSkills);           // line 22
    var linkedinCounts := ExtractSkills(linkedinSkills);       // line 23
    var merged := MergeCounts(linkedinCounts, indeedCounts);   // lines 26-29
    trends := AddPctChange(merged);                            // lines 33-34
    rising := RisingSkills(trends);                            // line 37
    rising := CleanLabels(rising);                             // line 40
  }
}
