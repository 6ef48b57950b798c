/** The three job-posting tables as the scripts read them. A cell is a
    string or NaN (None); columns the scripts never name are kept, in order,
    in `others`, because whole-row comparisons see them. */
module Datasets {
  import opened Outcomes

  type Cell = Option<string>

  /** A row of indeed_webscrape.csv; `href` is the `job_title-href` column. */
  datatype IndeedRow = IndeedRow(
    href: Cell, jobTitle: Cell, location: Cell, company: Cell, skills: Cell, others: seq<Cell>)

  /** A row of linkedin_historical.csv. */
  datatype HistoricalRow = HistoricalRow(
    jobTitle: Cell, company: Cell, jobLocation: Cell, jobSkills: Cell, jobSummary: Cell, others: seq<Cell>)

  /** A row of linkedin_no_skills.csv; `context` holds a JSON document as text. */
  datatype NoSkillsRow = NoSkillsRow(
    title: Cell, company: Cell, location: Cell, context: Cell, others: seq<Cell>)
}
