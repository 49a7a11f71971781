/**
 * The search results of src/services/transcriptService.js: the query rows
 * mapped to transcript items (the aggregated participant list split back
 * into names) and the parameter list the searches build, with the optional
 * LIMIT placeholder numbered after the parameters already present.
 *
 * The SQL itself (joins, ILIKE matching, DISTINCT, ordering) runs in the
 * database and is not part of this model: the rows arrive as given input.
 */
module TranscriptRows {
  import opened Common
  import opened JsStrings
  import opened JsValues

  /** A result row; `participants` is `STRING_AGG(name || ' (' || email || ')', ', ')` or NULL. */
  datatype Row = Row(
    id: int,
    fathomId: string,
    title: Option<string>,
    startTime: string,
    duration: Option<int>,
    transcript: Option<string>,
    summary: Option<string>,
    participants: Option<string>)

  datatype TranscriptItem = TranscriptItem(
    id: int,
    fathomId: string,
    title: Option<string>,
    startTime: string,
    duration: Option<int>,
    transcript: Option<string>,
    summary: Option<string>,
    participants: seq<string>)

  /** `row.participants ? row.participants.split(sep) : []`. */
  function ParticipantList(agg: Option<string>, sep: string): (r: seq<string>)
    requires |sep| > 0
    ensures r == [] <==> agg.None? || agg.value == ""
  {
    if agg.Some? && agg.value != "" then Split(agg.value, sep) else []
  }

  /** The email and domain searches split the list on ","; the company search on ", ". */
  const EmailSeparator: string := ","
  const CompanySeparator: string := ", "

  function ToItem(row: Row, sep: string): (r: TranscriptItem)
    requires |sep| > 0
    ensures r.id == row.id && r.fathomId == row.fathomId && r.title == row.title
    ensures r.startTime == row.startTime && r.duration == row.duration
    ensures r.transcript == row.transcript && r.summary == row.summary
    ensures r.participants == ParticipantList(row.participants, sep)
  {
    TranscriptItem(row.id, row.fathomId, row.title, row.startTime, row.duration, row.transcript, row.summary,
      ParticipantList(row.participants, sep))
  }

  /** `results.map(row => ...)`: one item per row, in row order. */
  function ToItems(rows: seq<Row>, sep: string): (r: seq<TranscriptItem>)
    requires |sep| > 0
    ensures |r| == |rows| && forall k :: 0 <= k < |rows| ==> r[k] == ToItem(rows[k], sep)
  {
    seq(|rows|, k requires 0 <= k < |rows| => ToItem(rows[k], sep))
  }

  /** Joining the split list with the same separator gives back the aggregate. */
  lemma ParticipantListRoundTrip(agg: string, sep: string)
    requires |sep| > 0 && agg != ""
    ensures Join(ParticipantList(Some(agg), sep), sep) == agg
  {
    JoinSplit(agg, sep);
  }

  /** Names aggregated with ", " come back one by one from the company search. */
  lemma CompanySearchRecoversNames(names: seq<string>)
    requires |names| >= 1 && Join(names, CompanySeparator) != ""
    requires forall k :: 0 <= k < |names| ==> NoChar(names[k], ',')
    ensures ParticipantList(Some(Join(names, CompanySeparator)), CompanySeparator) == names
  {
    SplitJoin(names, CompanySeparator);
  }

  /** The email and domain searches keep the space after each comma on the second name. */
  lemma EmailSearchKeepsSpace(a: string, b: string)
    requires NoChar(a, ',') && NoChar(b, ',')
    ensures ParticipantList(Some(a + CompanySeparator + b), EmailSeparator) == [a, " " + b]
    ensures ParticipantList(Some(a + CompanySeparator + b), CompanySeparator) == [a, b]
  {
    var agg := a + CompanySeparator + b;
    assert agg == a + EmailSeparator + (" " + b);
    SplitAtFirst(a, EmailSeparator, " " + b);
    assert NoChar(" " + b, ',');
    NoOccurrence(" " + b, EmailSeparator);
    IndexOfAbsent(" " + b, EmailSeparator, 0);
    SplitAtFirst(a, CompanySeparator, b);
    NoOccurrence(b, CompanySeparator);
    IndexOfAbsent(b, CompanySeparator, 0);
  }

  // ---------------------------------------------------------------------------
  // Query parameters
  // ---------------------------------------------------------------------------

  /** A query parameter: a text built by the service, or the limit exactly as the route passed it. */
  datatype Param = Text(s: string) | Limit(v: Json)

  /** What a search appends to its fixed SQL text, and the parameters it passes. */
  datatype SearchQuery = SearchQuery(suffix: string, params: seq<Param>)

  /** ``finalQuery += ` LIMIT $${params.length + 1}` ``, then the limit is pushed. */
  function WithLimit(params: seq<Param>, limit: Json): (q: SearchQuery)
    ensures q.params == params + [Limit(limit)]
  {
    SearchQuery(" LIMIT $" + NatToString(|params| + 1), params + [Limit(limit)])
  }

  /**
   * `searchByEmail` / `searchByDomain`: one parameter, and a limit whenever
   * `options.limit` is truthy. The routes pass `req.query.limit` unchanged, so
   * the limit is a text (`"0"` is truthy) or `undefined`.
   */
  function KeyParams(key: string, limit: Prop): (q: SearchQuery)
    ensures !TruthyProp(limit) ==> q == SearchQuery("", [Text(key)])
  {
    if TruthyProp(limit) then WithLimit([Text(key)], limit.value)
    else SearchQuery("", [Text(key)])
  }

  /**
   * `searchByCompany`: the term as given, lowercased, uppercased, then as given
   * three more times; a limit only when `options.limit && options.limit > 0`.
   */
  function CompanyParams(company: string, limit: Prop): (q: SearchQuery)
    ensures !(TruthyProp(limit) && JsPositive(limit.value)) ==> q.suffix == ""
  {
    var term := Text("%" + company + "%");
    var params := [term, Text("%" + ToLower(company) + "%"), Text("%" + ToUpper(company) + "%"), term, term, term];
    if TruthyProp(limit) && JsPositive(limit.value) then WithLimit(params, limit.value)
    else SearchQuery("", params)
  }

  /** The LIMIT placeholder names the last parameter, and that parameter is the limit. */
  predicate LimitAddressesLast(q: SearchQuery, limit: Json) {
    |q.params| >= 1 &&
    q.suffix == " LIMIT $" + NatToString(|q.params|) &&
    q.params[|q.params| - 1] == Limit(limit)
  }

  /** Any truthy limit is applied, the text `"0"` included, as parameter $2. */
  lemma KeyParamsLimit(key: string, limit: Prop)
    ensures TruthyProp(limit) <==> KeyParams(key, limit).suffix != ""
    ensures TruthyProp(limit) ==>
      LimitAddressesLast(KeyParams(key, limit), limit.value) && |KeyParams(key, limit).params| == 2 &&
      KeyParams(key, limit).suffix == " LIMIT $2"
    ensures KeyParams(key, Defined(JStr("0"))).suffix == " LIMIT $2"
  {
    assert NatToString(2) == "2";
  }

  /** The company search limits only for a limit above zero, as parameter $7. */
  lemma CompanyParamsLimit(company: string, limit: Prop)
    ensures TruthyProp(limit) && JsPositive(limit.value) <==> CompanyParams(company, limit).suffix != ""
    ensures TruthyProp(limit) && JsPositive(limit.value) ==>
      LimitAddressesLast(CompanyParams(company, limit), limit.value) &&
      |CompanyParams(company, limit).params| == 7 &&
      CompanyParams(company, limit).suffix == " LIMIT $7"
    ensures CompanyParams(company, Defined(JStr("0"))).suffix == ""
  {
    if TruthyProp(limit) && JsPositive(limit.value) {
      assert NatToString(7) == "7";
    }
    ZeroTextNotPositive();
  }

  /** The text `"0"` is truthy but not above zero. */
  lemma ZeroTextNotPositive()
    ensures TruthyProp(Defined(JStr("0"))) && !JsPositive(JStr("0"))
  {
    IntTextPositive(0);
    assert IntToString(0) == "0";
  }

  /** The three case variants wrap the same name. */
  lemma CompanyParamsVariants(company: string, limit: Prop)
    ensures var p := CompanyParams(company, limit).params;
      |p| >= 6 && p[0] == p[3] == p[4] == p[5] == Text("%" + company + "%") &&
      p[1] == Text("%" + ToLower(company) + "%") && p[2] == Text("%" + ToUpper(company) + "%")
  {
  }
}
