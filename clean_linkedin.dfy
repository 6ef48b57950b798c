/** clean_linkedin.py: derive `datePosted` from the JSON in the `context`
    column, drop rows without a date, then drop duplicate rows. */
module CleanLinkedIn {
  import opened Outcomes
  import opened Series
  import opened JsonValues
  import opened Datasets

  /** The exceptions that end the script. */
  datatype ScriptError =
    | AttributeError     // the JSON text parsed to something other than an object, which has no `.get`
    | UnhashableValue    // a surviving `datePosted` is a list or a dict, which `drop_duplicates` cannot hash

  /** A cleaned row: the input row with the derived `datePosted` column. */
  datatype DatedRow = DatedRow(row: NoSkillsRow, datePosted: Json)

  /** `extract_date`. JSON text parsing is the parameter `parse` (None stands
      for `JSONDecodeError`); a null cell is a float NaN, on which `json.loads`
      raises `TypeError`. Both exceptions are absorbed as None, which is
      `JNull` here, as is a JSON null stored under the key. */
  function ExtractDate(cell: Cell, parse: string -> Option<Json>): (r: Result<Json, ScriptError>)
    ensures cell.None? ==> r == Ok(JNull)
    ensures cell.Some? && parse(cell.value).None? ==> r == Ok(JNull)
    ensures cell.Some? && parse(cell.value).Some? && parse(cell.value).value.JObject? ==>
              var fields := parse(cell.value).value.fields;
              r == Ok(if "datePosted" in fields then fields["datePosted"] else JNull)
    ensures r.Err? <==> cell.Some? && parse(cell.value).Some? && !parse(cell.value).value.JObject?
  {
    match cell
    case None => Ok(JNull)
    case Some(text) =>
      match parse(text)
      case None => Ok(JNull)
      case Some(JObject(fields)) => Ok(if "datePosted" in fields then fields["datePosted"] else JNull)
      case Some(_) => Err(AttributeError)
  }

  /** `df["context"].apply(extract_date)` stored as the new column: fails on
      the first row whose extraction raises. */
  function WithDatePosted(df: seq<NoSkillsRow>, parse: string -> Option<Json>): (r: Result<seq<DatedRow>, ScriptError>)
    ensures r.Err? <==> exists i :: 0 <= i < |df| && ExtractDate(df[i].context, parse).Err?
    ensures r.Err? ==> r.error == AttributeError
    ensures r.Ok? ==>
              && |r.value| == |df|
              && (forall i :: 0 <= i < |df| ==>
                    ExtractDate(df[i].context, parse).Ok? &&
                    r.value[i] == DatedRow(df[i], ExtractDate(df[i].context, parse).value))
    decreases |df|
  {
    if df == [] then Ok([])
    else
      match ExtractDate(df[0].context, parse)
      case Err(e) => Err(e)
      case Ok(date) =>
        match WithDatePosted(df[1..], parse)
        case Err(e) =>
          assert exists i :: 0 <= i < |df| && ExtractDate(df[i].context, parse).Err? by {
            var i :| 0 <= i < |df[1..]| && ExtractDate(df[1..][i].context, parse).Err?;
            assert df[i + 1] == df[1..][i];
          }
          Err(e)
        case Ok(rest) =>
          assert forall i :: 1 <= i < |df| ==> df[i] == df[1..][i - 1];
          Ok([DatedRow(df[0], date)] + rest)
  }

  /** Keeps a row in `dropna(subset=["datePosted"])`. */
  predicate HasDate(r: DatedRow)
  {
    !IsNA(r.datePosted)
  }

  /** `drop_duplicates()` over every column, `datePosted` included. */
  function DropDuplicateRows(rows: seq<DatedRow>): (r: Result<seq<DatedRow>, ScriptError>)
    ensures r.Err? <==> exists i :: 0 <= i < |rows| && !Hashable(rows[i].datePosted)
    ensures r.Err? ==> r.error == UnhashableValue
    ensures r.Ok? ==> r.value == DropDuplicates(rows)
  {
    if forall i | 0 <= i < |rows| :: Hashable(rows[i].datePosted) then Ok(DropDuplicates(rows))
    else Err(UnhashableValue)
  }

  /** `dropna(subset=["datePosted"])` followed by `drop_duplicates()`. */
  function CleanRows(dated: seq<DatedRow>): (r: Result<seq<DatedRow>, ScriptError>)
    ensures r.Err? ==> r.error == UnhashableValue
  {
    DropDuplicateRows(Filter(dated, HasDate))
  }

  /** The script: it fails with AttributeError exactly when some row's JSON
      is not an object, and otherwise drops the null dates and the
      duplicates of the dated table. */
  method Clean(df: seq<NoSkillsRow>, parse: string -> Option<Json>) returns (r: Result<seq<DatedRow>, ScriptError>)
    ensures r == Err(AttributeError) <==> exists i :: 0 <= i < |df| && ExtractDate(df[i].context, parse).Err?
    ensures WithDatePosted(df, parse).Ok? ==> r == CleanRows(WithDatePosted(df, parse).value)
  {
    var dated := WithDatePosted(df, parse);       // df["datePosted"] = df["context"].apply(extract_date)
    if dated.Err? {
      return Err(dated.error);
    }
    var rows := Filter(dated.value, HasDate);      // df = df.dropna(subset=["datePosted"])
    r := DropDuplicateRows(rows);                  // df = df.drop_duplicates()
  }

  /** Cleaning fails exactly when a surviving date is a list or a dict. */
  lemma {:induction false} CleanRowsFails(dated: seq<DatedRow>)
    ensures CleanRows(dated) == Err(UnhashableValue) <==>
              exists i :: 0 <= i < |dated| && HasDate(dated[i]) && !Hashable(dated[i].datePosted)
  {
    var rows := Filter(dated, HasDate);
    if exists i :: 0 <= i < |rows| && !Hashable(rows[i].datePosted) {
      var i :| 0 <= i < |rows| && !Hashable(rows[i].datePosted);
      assert rows[i] in dated;
    }
  }

  /** What survives cleaning: dated rows only, pairwise distinct, in input
      order, and every dated row is among them. */
  lemma {:induction false} CleanRowsKeeps(dated: seq<DatedRow>)
    ensures var r := CleanRows(dated);
            r.Ok? ==>
              && |r.value| <= |dated|
              && (forall i :: 0 <= i < |r.value| ==> HasDate(r.value[i]))
              && NoDup(r.value)
              && IsSubseq(r.value, dated)
              && (forall i :: 0 <= i < |dated| ==> (dated[i] in r.value <==> HasDate(dated[i])))
  {
    var rows := Filter(dated, HasDate);
    var r := CleanRows(dated);
    if r.Ok? {
      FilterIsSubseq(dated, HasDate);
      DropDuplicatesIsSubseq(rows);
      IsSubseqTransitive(r.value, rows, dated);
    }
  }

  /** The kept row of each group of equal rows is its first occurrence. */
  lemma {:induction false} CleanKeepsFirstOccurrences(rows: seq<DatedRow>)
    requires DropDuplicateRows(rows).Ok?
    ensures forall i, j :: 0 <= i < j < |DropDuplicateRows(rows).value| ==>
              FirstIndex(rows, DropDuplicateRows(rows).value[i]) < FirstIndex(rows, DropDuplicateRows(rows).value[j])
  {
    DropDuplicatesKeepsFirst(rows);
  }
}
