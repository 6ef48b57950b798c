# Job-market analysis scripts, modelled in Dafny

The repository is a set of pandas scripts over three job-posting tables: an
Indeed scrape, a historical LinkedIn table with skills, and a recent LinkedIn
table without skills whose `context` column holds a JSON document. This
project models the data processing of those scripts. Plotting, file I/O and
the statistical library calls are left out.

- `clean_linkedin.py` derives `datePosted` from the JSON of each row, drops
  rows without a date, then drops duplicate rows.
- `clean_skills_plot.py` does three things:
  - fills the Indeed skills with `""`;
  - groups the Indeed rows by listing link (`first` of the scalar columns,
    distinct skills strings joined by `", "`);
  - cleans the historical LinkedIn table: de-duplicates it, fills the
    summary, and drops rows missing a critical column.
- `skill_demand_evolution.py` works in four steps:
  - it splits the lowercased skills strings at `", "` and counts the tokens;
  - it merges the historical and the recent frequency tables, filling 0 for
    missing counts;
  - it adds the percentage change, with a denominator of 1 for a skill that
    has no historical count;
  - it keeps the ten highest changes and cleans their labels.
- `hiring_trends_overtime.py` counts postings per calendar month.
- `forecast_job_postings.py` builds the monthly series, then dates the six
  forecast months: the month ends after the latest month.
- `most_common_job_titles.py`, `top_hiring_companies.py` and
  `top_hiring_locations.py` concatenate one column of the three tables and
  take `value_counts().head(10)`. The locations script first removes bare
  country names.

## How the model is built

A table is a `seq` of row datatypes, and a CSV cell is `Option<string>`, where
`None` is NaN. The pandas operations the scripts use are written once, in
`Series`, `Sorting`, `Counting`, `Text` and `Calendar`:

- the order-preserving `dropna` and boolean-mask filter;
- `drop_duplicates(keep='first')`;
- `groupby(...).first()`;
- `value_counts`, `head`, `sort_values`;
- `str.split`, `str.join`, `str.strip`, `str.lower`;
- `to_period('M')` and the `'M'` date frequency.

Each script is a module whose steps are functions. In `clean_linkedin.py`,
`clean_skills_plot.py`, `skill_demand_evolution.py`,
`hiring_trends_overtime.py` and `forecast_job_postings.py`, the script itself is
a method whose postcondition ties its outputs to those functions. The three
ranking scripts are functions themselves: TopJobTitles, TopCompanies and
TopLocations. Lemmas prove what the outputs mean:

- counts are occurrences in the input;
- nothing left out of a top-10 is more frequent than what was kept;
- splitting undoes joining;
- stripping is idempotent;
- the months ascend;
- the first forecast month follows the latest posting month.

`value_counts` and `sort_values` are stable insertion sorts in the model. The
contracts promise only what pandas promises: the right multiset, in order.
Rows that tie come in no promised order.

Behaviour of the scripts worth noting:

- Skill tokens are not trimmed. No noise list is applied to them. The split is
  on the exact text `", "` (skill_demand_evolution.py:18).
- `(required)` is removed case-sensitively wherever it occurs in a label,
  together with the whitespace before it, and the label is then stripped
  (skill_demand_evolution.py:40). No other qualifier phrase is removed.
- A frequency ranking breaks ties in no promised order; it does not break them
  by first occurrence.
- Column mappings are fixed in each script, so no configuration error exists.
- Parsing failures are absorbed as "no date", but not every extraction problem
  is recoverable:
  - JSON text that parses to a non-object (a list, a string, a number) makes
    `data.get` raise `AttributeError`, which ends the script;
  - a `datePosted` that is a list or an object makes `drop_duplicates` raise
    (clean_linkedin.py:20, 31).
- Grouping the Indeed rows de-duplicates whole skills strings, not individual
  skills (clean_skills_plot.py:25).
- The grouped Indeed table feeds only the TF-IDF ranking. The saved Indeed
  file is the filled, ungrouped table (clean_skills_plot.py:86).
- The historical LinkedIn summary is filled after de-duplication, which can
  leave two equal rows behind (clean_skills_plot.py:29-30).
- The monthly series has one entry per month that has a posting, not per
  month in the covered range (hiring_trends_overtime.py:18).

## Model

| member | source | states |
|---|---|---|
| CleanLinkedIn.ExtractDate | clean_linkedin.py:17-22 | a null cell or unparsable text gives None; a JSON object gives its `datePosted` value or None when the key is missing; it fails exactly when the text parses to something that is not an object |
| CleanLinkedIn.WithDatePosted | clean_linkedin.py:25 | fails exactly when some row's extraction fails; otherwise it keeps every row, in order, paired with its extracted date |
| CleanLinkedIn.DropDuplicateRows | clean_linkedin.py:31 | fails exactly when some date is a list or an object (unhashable); otherwise it is `drop_duplicates` of the rows |
| CleanLinkedIn.CleanRows | clean_linkedin.py:28-31 | the only failure of the two drop steps is the unhashable-value error |
| CleanLinkedIn.Clean | clean_linkedin.py:25-31 | the script fails with AttributeError exactly when some row's JSON is not an object; otherwise its result is the dropna-then-dedup of the dated table |
| CleanLinkedIn.CleanRowsFails | clean_linkedin.py:28-31 | cleaning fails exactly when a row with a non-null date holds a list or an object as that date |
| CleanLinkedIn.CleanRowsKeeps | clean_linkedin.py:28-31 | a successful clean keeps only dated rows, pairwise distinct, in input order, no more than the input; an input row is among them exactly when its date is not null |
| CleanLinkedIn.CleanKeepsFirstOccurrences | clean_linkedin.py:31 | the kept rows appear in the order of their first occurrences in the input |
| CleanSkillsPlot.FillRowSkills | clean_skills_plot.py:17 | a row's skills become `""` when null, and the row is otherwise unchanged |
| CleanSkillsPlot.FillSkills | clean_skills_plot.py:17 | every row is filled, and the table keeps its length and order |
| CleanSkillsPlot.GroupSkills | clean_skills_plot.py:25 | the non-null skills strings of one link's group: each comes from a row of the group, and every such string is present |
| CleanSkillsPlot.GroupSkillsColumn | clean_skills_plot.py:25 | the group's skills are exactly its skills column with nulls dropped, in row order |
| CleanSkillsPlot.GroupOf | clean_skills_plot.py:20-26 | a group's aggregate carries its link; its title, location and company are each null exactly when that column is null throughout the group, and otherwise the value of the group's first row where it is not null; its skills are the distinct skills strings of the group joined by ", " |
| CleanSkillsPlot.GroupSkillsFirstSeen | clean_skills_plot.py:25 | when no skills string contains ", ", the pieces of the joined skills are skills strings of the group, in the order of their first occurrence |
| CleanSkillsPlot.HrefKeys | clean_skills_plot.py:20 | the group keys are strictly ascending, each is some row's link, and every non-null link is a key |
| CleanSkillsPlot.GroupByHref | clean_skills_plot.py:20-26 | one row per key, links strictly ascending, each row the aggregate of its link's group |
| CleanSkillsPlot.GroupByHrefKeys | clean_skills_plot.py:20 | the grouped table's links are exactly the non-null links of the input |
| CleanSkillsPlot.GroupSkillsSplit | clean_skills_plot.py:25 | splitting a group's skills at ", " gives back its distinct skills strings when none contains ", " |
| CleanSkillsPlot.GroupSharedSkills | clean_skills_plot.py:25 | a group whose rows share one skills string gets that string unchanged |
| CleanSkillsPlot.FillRowSummary | clean_skills_plot.py:30 | a null summary becomes "No summary available", and the row is otherwise unchanged |
| CleanSkillsPlot.FillSummary | clean_skills_plot.py:30 | every row is filled, and the table keeps its length and order |
| CleanSkillsPlot.FillAfterDedupCanDuplicate | clean_skills_plot.py:29-30 | two rows that differ only by a null summary versus "No summary available" both survive de-duplication and are equal once filled |
| CleanSkillsPlot.CleanTables | clean_skills_plot.py:17-31 | the saved Indeed rows are the input rows with skills filled; the grouped table is GroupByHref of them; the saved LinkedIn rows all have their critical columns and a summary, are a subsequence of the de-duplicated, filled table, and include each input row (filled) exactly when its critical columns are present |
| CleanSkillsPlot.Clean | clean_skills_plot.py:17-87 | the script saves nothing and fails with an empty vocabulary exactly when a TF-IDF fit (on the grouped Indeed skills, then on the cleaned LinkedIn skills) keeps no term, and with an index error exactly when both fits keep terms but the Indeed vocabulary is larger than the LinkedIn one, whose feature names the Indeed ranking is looked up in; otherwise it saves the CleanTables tables, the LinkedIn one being the de-duplicated, filled table with the rows missing a critical column dropped, so equal rows left by filling stay |
| CleanSkillsPlot.CleanedHistoricalRows | clean_skills_plot.py:29-31 | an input row, filled, survives the LinkedIn cleaning exactly when its title, company and skills are present |
| SkillDemandEvolution.SkillTokens | skill_demand_evolution.py:17-18 | no token contains the separator ", " |
| SkillDemandEvolution.SkillTokensFromEntries | skill_demand_evolution.py:17-18 | every token is a piece of the lowercased split of some entry |
| SkillDemandEvolution.OccSkillTokens | skill_demand_evolution.py:17-18 | a token's occurrences over two batches of entries add up |
| SkillDemandEvolution.ExtractSkills | skill_demand_evolution.py:14-19 | the loop gathers the tokens of every non-null entry; the result is their value counts, one row per distinct token with its occurrences, and no key contains ", " |
| SkillDemandEvolution.CountOfCounts | skill_demand_evolution.py:29 | looking a skill up in a frequency table gives its occurrences in the tokens, and 0 when it is absent (the `fillna(0)`) |
| SkillDemandEvolution.MergedSkills | skill_demand_evolution.py:26-29 | the merged index holds exactly the skills of either table, without duplicates; it is the historical index itself when the two indexes are equal, and is strictly ascending otherwise |
| SkillDemandEvolution.CountsFor | skill_demand_evolution.py:26-29 | one row per given skill, in order, holding its count in each table (0 when missing) |
| SkillDemandEvolution.MergeCounts | skill_demand_evolution.py:26-29 | every row's skill comes from one of the tables, every skill of either table has a row, no skill repeats, and each row holds both counts with 0 for a missing one |
| SkillDemandEvolution.PctChange | skill_demand_evolution.py:33-34 | the change is at least -100, positive, negative or zero exactly as the recent count is above, below or equal to the historical one, and is 100 times the recent count when the historical count is 0 |
| SkillDemandEvolution.AddPctChange | skill_demand_evolution.py:33-34 | the column is added to every row, and the index and the counts stay |
| SkillDemandEvolution.RisingSkills | skill_demand_evolution.py:37 | at most ten rows of the table, in non-increasing change; no row left out has a larger change than the last one kept |
| SkillDemandEvolution.HeadOfSorted | skill_demand_evolution.py:37 | the first rows of the table sorted by falling change are rows of the table, and no row left out has a larger change than the last one kept |
| SkillDemandEvolution.CleanLabels | skill_demand_evolution.py:40 | only the labels change, each by the "(required)" clean-up |
| SkillDemandEvolution.MergedCountsAreOccurrences | skill_demand_evolution.py:26-29 | each merged row holds its skill's occurrences in the historical and the recent tokens, at least one of them non-zero |
| SkillDemandEvolution.MergedCoversTokens | skill_demand_evolution.py:26-29 | every token of a list has a row in the merged table |
| SkillDemandEvolution.TokenTrendsCounts | skill_demand_evolution.py:26-34 | each trend row holds its skill's occurrences in both token lists, at least one non-zero, and the percentage change between them |
| SkillDemandEvolution.Trends | skill_demand_evolution.py:22-34 | every saved row's change is the percentage change between its two counts; TrendsCounts and TrendsCoverTokens state what the counts and rows are |
| SkillDemandEvolution.TrendsCounts | skill_demand_evolution.py:22-34 | the same, stated for the two skills columns of the script |
| SkillDemandEvolution.TrendsCoverTokens | skill_demand_evolution.py:22-29 | the trends table has one row per distinct token of either column and no repeated skill |
| SkillDemandEvolution.Evolution | skill_demand_evolution.py:22-40 | the saved trends table is Trends of the two skills columns, and the rising table is the label clean-up of its ten highest changes |
| HiringTrends.YearMonths | hiring_trends_overtime.py:17 | each posting's period is the year and month of its date |
| HiringTrends.PostingsPerMonth | hiring_trends_overtime.py:18 | one row per month with postings, holding the number of postings in that month; the months are distinct and strictly ascending, and the counts add up to the number of postings |
| HiringTrends.MonthCount | hiring_trends_overtime.py:18 | a month's count equals the number of postings dated in that month |
| HiringTrends.HiringTrendsOverTime | hiring_trends_overtime.py:14-18 | the plotted series counts the postings per month, chronologically, with the counts adding up to the number of postings |
| ForecastJobPostings.MonthlyPoints | forecast_job_postings.py:20-26 | one point per row of the monthly counts; what each point holds is stated by MonthlyPointsSpec |
| ForecastJobPostings.MonthlyPointsSpec | forecast_job_postings.py:20-26 | one point per month with postings, dated the first of that month, counting its postings (at least one); the dates strictly ascend |
| ForecastJobPostings.MonthlyPointsCover | forecast_job_postings.py:20-26 | every posting's month has a point |
| ForecastJobPostings.MaxDate | forecast_job_postings.py:47 | the maximum is one of the dates and no date is later |
| ForecastJobPostings.MonthEnds | forecast_job_postings.py:47 | the k-th date is the end of the k-th month from the start; the first is the earliest month end not before the start |
| ForecastJobPostings.FutureDates | forecast_job_postings.py:47 | six month ends: the first in the month after the latest date, each in the month after the one before, so strictly increasing |
| ForecastJobPostings.ForecastTable | forecast_job_postings.py:48 | row i pairs the i-th future date with the i-th forecast value |
| ForecastJobPostings.Forecast | forecast_job_postings.py:17-48 | fails exactly when there are no postings; otherwise six rows carry the forecast values at the ends of six consecutive months, strictly increasing, every posting's month comes before the first forecast month, and some posting's month immediately precedes it |
| ForecastJobPostings.LatestMonth | forecast_job_postings.py:47 | the first forecast month comes after every posting's month, and directly after the latest one |
| MostCommonJobTitles.AllJobTitles | most_common_job_titles.py:14-19 | the concatenation holds the three title columns in order, each in its own order |
| MostCommonJobTitles.TopJobTitles | most_common_job_titles.py:22 | at most ten distinct titles, each with its number of occurrences over the three tables (nulls not counted), in non-increasing count; no title left out is more frequent than the last one kept |
| MostCommonJobTitles.TitleCountBySource | most_common_job_titles.py:19 | a title's count over the concatenation is the sum of its counts in the three tables |
| TopHiringCompanies.AllCompanies | top_hiring_companies.py:13-18 | the concatenation holds the three company columns in order |
| TopHiringCompanies.TopCompanies | top_hiring_companies.py:21 | at most ten distinct companies with their occurrence counts, in non-increasing count; no company left out is more frequent than the last one kept |
| TopHiringCompanies.CompanyCountBySource | top_hiring_companies.py:18 | a company's count over the concatenation is the sum of its counts in the three tables |
| TopHiringLocations.AllLocations | top_hiring_locations.py:13-18 | the concatenation holds the three location columns in order |
| TopHiringLocations.IsCountry | top_hiring_locations.py:24 | a null location is no country, and a country match is a whole value of 5 to 14 characters, the lengths of the listed names |
| TopHiringLocations.LocationFilterExample | top_hiring_locations.py:24 | "India" and "india" are removed, while "Pune" and a null stay, in order |
| TopHiringLocations.FilteredLocations | top_hiring_locations.py:24 | the filter keeps, in order, exactly the values whose lowercase form is not a listed country name, nulls included, and keeps every occurrence of each |
| TopHiringLocations.LongLocationKept | top_hiring_locations.py:24 | matching is of whole values: a location longer than every country name is never removed |
| TopHiringLocations.TopLocations | top_hiring_locations.py:27 | at most ten distinct non-country locations with their occurrence counts in the combined series, in non-increasing count; no non-country location left out is more frequent than the last one kept |
| Counting.ValueCounts | skill_demand_evolution.py:19 | one row per distinct value with its number of occurrences (at least one), the counts adding up to the number of values, highest count first |
| Counting.TopCounts | most_common_job_titles.py:22 | `value_counts().head(n)` of a column with nulls: at most n distinct values, each with its occurrences in the column, in non-increasing count, and nothing left out more frequent than the last value kept |
| Counting.HeadOfCounts | most_common_job_titles.py:22 | a value missing from the first n rows of a frequency table sorted by falling count occurs no more often than the last row kept |
| Counting.HeadOfCountsOrder | most_common_job_titles.py:22 | the first n rows of a frequency table keep its distinct values and its order |
| Counting.SortedTalliesCount | skill_demand_evolution.py:19 | the tallies of a column, sorted by SortBy under any comparison, are still its frequency table |
| Counting.TalliesTotal | skill_demand_evolution.py:19 | the tallies count every value exactly once |
| Series.Filter | clean_linkedin.py:28 | the kept rows are rows of the input satisfying the condition, and every such row is kept |
| Series.FilterIsSubseq | clean_linkedin.py:28 | filtering keeps the input order |
| Series.OccFilter | top_hiring_locations.py:24 | a kept value is counted as often as in the input, a dropped one not at all |
| Series.NonNull | skill_demand_evolution.py:17 | `dropna` keeps exactly the non-null values |
| Series.OccNonNull | skill_demand_evolution.py:17 | counting after `dropna` counts the matching cells, and nulls count for nothing |
| Series.DropDuplicates | clean_linkedin.py:31 | no value repeats, and the result holds exactly the input's values |
| Series.DropDuplicatesIsSubseq | clean_linkedin.py:31 | de-duplication keeps the input order |
| Series.DropDuplicatesKeepsFirst | clean_linkedin.py:31 | the kept values appear in the order of their first occurrences |
| Series.FirstWhere | clean_skills_plot.py:21-23 | `first` of a group is null exactly when the column is null throughout the group, and otherwise is the value of the group's first row where it is not null |
| Series.Head | most_common_job_titles.py:22 | `head(n)` is the first min(n, length) rows |
| Series.OccConcat | most_common_job_titles.py:19 | occurrences in a concatenation add up |
| Sorting.SortBy | skill_demand_evolution.py:37 | sorting rearranges the rows: same length, same multiset, and no duplicate is introduced |
| Sorting.SortBySorted | skill_demand_evolution.py:37 | under a total preorder, every row may precede every later row |
| Text.Lower | skill_demand_evolution.py:18 | every ASCII capital becomes its small letter, and every other character stays |
| Text.Join | clean_skills_plot.py:25 | joining no pieces gives the empty string; otherwise the result starts with the first piece and is as long as the pieces plus one separator between each two |
| Text.Split | skill_demand_evolution.py:18 | at least one piece; joining the pieces with ", " gives the text back, and no piece contains ", " |
| Text.SplitJoin | clean_skills_plot.py:25 | splitting undoes joining when no piece contains ", " |
| Text.Strip | skill_demand_evolution.py:40 | the result is the part of the text between its leading and trailing whitespace, everything outside it is whitespace, and it neither starts nor ends with whitespace |
| Text.StripIdempotent | skill_demand_evolution.py:40 | stripping twice strips nothing more |
| Text.RemoveRequired | skill_demand_evolution.py:40 | the substitution never lengthens a label; what it removes is stated by the three lemmas below |
| Text.RemoveRequiredAbsent | skill_demand_evolution.py:40 | a label without "(required)" is left unchanged by the substitution |
| Text.RemoveRequiredMatch | skill_demand_evolution.py:40 | "(required)" is removed with the whitespace run before it, and scanning resumes after it |
| Text.RemoveRequiredKeeps | skill_demand_evolution.py:40 | a character, whitespace or not, is kept when no "(required)" follows the whitespace run starting at it |
| Text.CleanLabel | skill_demand_evolution.py:40 | the cleaned label is no longer than the original and neither starts nor ends with whitespace |
| Text.CleanLabelWithoutRequired | skill_demand_evolution.py:40 | a label without "(required)" is only stripped |
| Text.StrLeIsPreorder | clean_skills_plot.py:20 | Python's string order is total and transitive, so sorting the group keys is well defined |
| JsonValues.NAExamples | clean_linkedin.py:28 | only None and NaN count as missing: an empty string, zero, false, an infinity, an empty list and an empty dict do not |
| JsonValues.HashableExamples | clean_linkedin.py:31 | None, NaN, strings and numbers can be hashed, and lists and dicts, even empty, cannot |
| Calendar.MonthOf | hiring_trends_overtime.py:17 | a date's period has its year and month |
| Calendar.FirstDay | forecast_job_postings.py:24-25 | the first day of a period lies in it, and no date of the period is earlier |
| Calendar.LastDay | forecast_job_postings.py:47 | the month end lies in the period, is its last day, and no date of the period is later |
| Calendar.NextMonth | forecast_job_postings.py:47 | the next period is a valid month, one month later |
| Calendar.DaysInMonth | forecast_job_postings.py:47 | between 28 and 31 days; February has 29 exactly in leap years |

## Left out

- DashBoard.py, the Streamlit front end that launches the scripts, is not part of this model.
- Reading and writing CSV files and printing are not modelled. Each script works on tables given as values and returns the tables it saves, or the error that stops it before saving.
- Plots are not modelled (clean_skills_plot.py:67-82 and the plot blocks of the other scripts).
- The TF-IDF ranking in clean_skills_plot.py:44-62 is a library call. It is not modelled. Only the tables it reads are.
- CleanSkillsPlot.Clean: how many terms `TfidfVectorizer.fit_transform` keeps for a column (clean_skills_plot.py:47, 50) is the parameter `vocabSize`, so the model does not compute the vocabulary itself. scikit-learn raises "empty vocabulary" when no token of two or more word characters outside its English stop list remains, for example for an empty Indeed table, for one whose skills are all null (they become "" at line 17), or for one row with skills "C, R". Because line 58 looks the Indeed term indices up in the vocabulary refitted on LinkedIn at line 50, the script also raises IndexError when the Indeed vocabulary is the larger, for example Indeed skills "Python, SQL" against LinkedIn skills "Python". In both cases the script saves nothing.
- The ARIMA fit and forecast (forecast_job_postings.py:40-44) is a library call. Its six values are the `forecast` parameter of ForecastJobPostings.Forecast. Only the failure on an empty series is modelled. How the fit behaves on very short series is not.
- ForecastJobPostings.Forecast: the forecast values are taken as given, so the contract says nothing about them beyond placing them at the right dates.
- CleanLinkedIn.ExtractDate: JSON text parsing (`json.loads`) is the parameter `parse`. The result `None` stands for a decode error.
- `pd.to_datetime` parsing of the date strings is not modelled: the date column is given as calendar dates. A malformed date string, which makes the script raise, is therefore outside the model. So are dates outside pandas' Timestamp range (years 1677 to 2262).
- Text.Lower: lowercases ASCII letters only. Python's `str.lower` also lowercases other scripts' letters, which the model leaves unchanged.
- Text.StrLe: compares by code point, as Python does for strings. Locale collation does not arise.
- Cells are strings or null. Other cell types that `read_csv` can infer (numbers, booleans) are not modelled. In particular, a location column that is null in all three tables loads as float64, and `.str.lower()` (top_hiring_locations.py:24) then raises AttributeError; TopHiringLocations.TopLocations returns an empty ranking there instead.
- The merged counts and the percentage change are exact numbers in the model. In the script, the count columns become floats when some skill is missing from one of the two tables (the NaN from the index union at skill_demand_evolution.py:26-29), and stay integers otherwise; the change is a 64-bit float division. Rounding and the `.0` formatting of saved counts are not modelled.
- SkillDemandEvolution.MergedSkills follows pandas' rule for building a frame from two Series with plain object indexes: an equal index is kept, and otherwise the sorted union is used. Other index types do not arise in the script.
- Counting.ValueCounts: the order among values with equal counts is left open, because `value_counts` does not promise one.
