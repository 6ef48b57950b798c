/** The Python values `json.loads` produces (None, bool, int or float, str,
    list, dict), and how pandas treats them once they sit in a column. */
module JsonValues {

  datatype Json =
    | JNull
    | JBool(b: bool)
    | JNumber(n: real)
    | JNaN                       // the literal NaN, which json.loads accepts
    | JInfinity(positive: bool)  // the literals Infinity and -Infinity
    | JString(s: string)
    | JArray(items: seq<Json>)
    | JObject(fields: map<string, Json>)

  /** `isna` on the value: None and NaN are missing. */
  predicate IsNA(j: Json)
  {
    j.JNull? || j.JNaN?
  }

  /** Python can hash the value, which `drop_duplicates` needs: every value
      but a list or a dict. */
  predicate Hashable(j: Json)
  {
    !j.JArray? && !j.JObject?
  }

  /** Only None and NaN are missing; an empty string, zero, false, an
      infinity and an empty list are values. */
  lemma NAExamples()
    ensures IsNA(JNull) && IsNA(JNaN)
    ensures !IsNA(JString("")) && !IsNA(JNumber(0.0)) && !IsNA(JBool(false))
    ensures !IsNA(JInfinity(true)) && !IsNA(JArray([])) && !IsNA(JObject(map[]))
  {
  }

  /** Scalars, None and NaN can be hashed; a list or a dict cannot, even an
      empty one. */
  lemma HashableExamples()
    ensures Hashable(JNull) && Hashable(JNaN) && Hashable(JString("")) && Hashable(JNumber(1.5))
    ensures !Hashable(JArray([])) && !Hashable(JObject(map[]))
  {
  }
}
