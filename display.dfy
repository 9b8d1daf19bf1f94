/**
  What the dashboard shows after a model response: the SQL text, the result
  table (or its "no data" row), the chart and the explanation, as a view
  record that each response updates; and the two request outcomes around
  it (an answer, which renders or raises an alert, and the suggestion
  list). The network call and JSON.parse belong to the browser and come in
  as a reply value and a parse function.
*/
module Display {
  import opened Wrappers
  import opened Extraction

  /** One row of result_data: its keys in Object.keys order, each with the
      text its value shows as in a table cell. */
  type Row = seq<(string, string)>

  /** The fields of a parsed answer that the view depends on; None is a
      field that is missing (or null). */
  datatype Response = Response(
    sqlQuery: Option<string>,
    resultData: Option<seq<Row>>,
    explanation: Option<string>,
    chartType: Option<string>)

  datatype ChartKind = Bar | Pie

  /** The table body: the empty-state row, or a header row and one row of
      cells per result row. */
  datatype Table = NoData | Filled(headers: seq<string>, body: seq<seq<string>>)

  /** A drawn chart: its type and the rows it plots. */
  datatype ChartView = ChartView(kind: ChartKind, data: seq<Row>)

  /** What the dashboard shows: the SQL text, the table, the chart (None
      before the first one is drawn) and the explanation. */
  datatype View = View(sql: string, table: Table, chart: Option<ChartView>, explanation: string)

  /** A string field is truthy in JavaScript when present and non-empty. */
  predicate Truthy(v: Option<string>) {
    v.Some? && v.value != ""
  }

  /** Object.keys(row). */
  function Keys(row: Row): (r: seq<string>)
    ensures |r| == |row| && forall i :: 0 <= i < |row| ==> r[i] == row[i].0
  {
    if |row| == 0 then [] else [row[0].0] + Keys(row[1..])
  }

  /** Object.values(row). */
  function Values(row: Row): (r: seq<string>)
    ensures |r| == |row| && forall i :: 0 <= i < |row| ==> r[i] == row[i].1
  {
    if |row| == 0 then [] else [row[0].1] + Values(row[1..])
  }

  /** The chart type renderChart picks: its parameter defaults to 'bar'
      when no type is given, and anything but 'pie' draws a bar chart. */
  function ChartKindOf(chartType: Option<string>): (k: ChartKind)
    ensures k == Pie <==> chartType == Some("pie")
  {
    var t := if chartType.None? then "bar" else chartType.value;
    if t == "pie" then Pie else Bar
  }

  /** The table rows: one per result row, holding that row's values. */
  function BodyRows(rows: seq<Row>): (r: seq<seq<string>>)
    ensures |r| == |rows| && forall i :: 0 <= i < |rows| ==> r[i] == Values(rows[i])
  {
    if |rows| == 0 then [] else [Values(rows[0])] + BodyRows(rows[1..])
  }

  /** Whether result_data is there and has rows. */
  predicate HasRows(resp: Response) {
    resp.resultData.Some? && |resp.resultData.value| > 0
  }

  /** renderResults: the new view after a parsed answer. The SQL text is
      replaced only by a truthy sql_query; the table shows the empty-state
      row exactly when result_data is missing or empty, and otherwise the
      first row's keys as headers and every row's values; a chart is drawn
      only when there are rows, and otherwise the previous chart stays; the
      explanation falls back to "Done." and so is never blank. */
  function Render(prev: View, resp: Response): (v: View)
    ensures v.sql == (if Truthy(resp.sqlQuery) then resp.sqlQuery.value else prev.sql)
    ensures v.table.NoData? <==> resp.resultData.None? || resp.resultData.value == []
    ensures v.table.Filled? ==>
      var rows := resp.resultData.value;
      v.table.headers == Keys(rows[0]) && |v.table.body| == |rows| &&
      forall i :: 0 <= i < |rows| ==> v.table.body[i] == Values(rows[i])
    ensures v.chart == (if HasRows(resp) then Some(ChartView(ChartKindOf(resp.chartType), resp.resultData.value))
                        else prev.chart)
    ensures v.explanation != ""
    ensures Truthy(resp.explanation) ==> v.explanation == resp.explanation.value
    ensures !Truthy(resp.explanation) ==> v.explanation == "Done."
  {
    var sql := if Truthy(resp.sqlQuery) then resp.sqlQuery.value else prev.sql;
    var table := if HasRows(resp) then Filled(Keys(resp.resultData.value[0]), BodyRows(resp.resultData.value))
                 else NoData;
    var chart := if HasRows(resp) then Some(ChartView(ChartKindOf(resp.chartType), resp.resultData.value))
                 else prev.chart;
    var explanation := if Truthy(resp.explanation) then resp.explanation.value else "Done.";
    View(sql, table, chart, explanation)
  }

  /** Rendering the same answer twice shows the same as rendering it once. */
  lemma RenderIdempotent(prev: View, resp: Response)
    ensures Render(Render(prev, resp), resp) == Render(prev, resp)
  {
  }

  /** An answer with a truthy sql_query and rows replaces everything the
      view shows: what was shown before no longer matters. */
  lemma CompleteAnswerReplacesView(a: View, b: View, resp: Response)
    requires Truthy(resp.sqlQuery) && HasRows(resp)
    ensures Render(a, resp) == Render(b, resp)
  {
  }

  /** An answer with a falsy sql_query and no rows keeps the previous SQL
      text and chart, shows the empty-state row and sets only the
      explanation. */
  lemma EmptyAnswerKeepsSqlAndChart(prev: View, resp: Response)
    requires !Truthy(resp.sqlQuery) && !HasRows(resp)
    ensures Render(prev, resp) == prev.(table := NoData, explanation := Render(prev, resp).explanation)
  {
  }

  /** What the call to the generation service gave: the generated text, or
      the error it raised (a failed request or a malformed reply). */
  datatype Reply = Generated(text: string) | Failed(message: string)

  /** The view after a question, and the alert raised, if any. */
  datatype AnswerStep = AnswerStep(view: View, alert: Option<string>)

  /** The Generate button: an empty question does nothing; otherwise the
      reply's text is cut down by ExtractJson and parsed, and a parsed answer
      is rendered; a failed call or a failed parse raises an alert
      "Gemini Error: ..." and leaves the view as it was. */
  function Answer(prev: View, question: string, reply: Reply,
                  parse: string -> Result<Response, string>): (r: AnswerStep)
    ensures question == "" ==> r == AnswerStep(prev, None)
    ensures r.alert.Some? ==> r.view == prev && |r.alert.value| >= 14 && r.alert.value[..14] == "Gemini Error: "
    ensures r.alert.None? && question != "" ==>
      reply.Generated? && parse(ExtractJson(reply.text)).Ok? &&
      r.view == Render(prev, parse(ExtractJson(reply.text)).value)
    ensures reply.Failed? && question != "" ==> r.alert == Some("Gemini Error: " + reply.message)
    ensures reply.Generated? && question != "" && parse(ExtractJson(reply.text)).Err? ==>
      r.alert == Some("Gemini Error: " + parse(ExtractJson(reply.text)).error)
    ensures question != "" && reply.Generated? && parse(ExtractJson(reply.text)).Ok? ==>
      r == AnswerStep(Render(prev, parse(ExtractJson(reply.text)).value), None)
  {
    if question == "" then AnswerStep(prev, None)
    else
      match reply
      case Failed(message) => AnswerStep(prev, Some("Gemini Error: " + message))
      case Generated(text) =>
        match parse(ExtractJson(text))
        case Err(message) => AnswerStep(prev, Some("Gemini Error: " + message))
        case Ok(resp) => AnswerStep(Render(prev, resp), None)
  }

  /** The suggestion list after a regeneration: the parsed questions, or a
      single item "Error: ..." when the call or the parse failed. */
  function Suggestions(reply: Reply, parseList: string -> Result<seq<string>, string>): (items: seq<string>)
    ensures reply.Failed? ==> items == ["Error: " + reply.message]
    ensures reply.Generated? && parseList(ExtractJson(reply.text)).Ok? ==>
      items == parseList(ExtractJson(reply.text)).value
    ensures reply.Generated? && parseList(ExtractJson(reply.text)).Err? ==>
      items == ["Error: " + parseList(ExtractJson(reply.text)).error]
  {
    match reply
    case Failed(message) => ["Error: " + message]
    case Generated(text) =>
      match parseList(ExtractJson(text))
      case Ok(questions) => questions
      case Err(message) => ["Error: " + message]
  }
}
