# Query-Craft response and upload rules, in Dafny

Query-Craft is a browser dashboard: the user uploads a CSV or JSON file,
sees the columns inferred from it, and asks questions that a hosted language
model answers with a SQL query, mock result rows, an explanation and a chart
type. This project models the decision logic of `script.js`:

- `extractJSON`, the heuristic that cuts the JSON payload out of the model's
  free-form reply, with JavaScript's `indexOf`, `lastIndexOf` and `substring`
  written out exactly (the -1 sentinel, clamping and the argument swap);
- the column list of an upload: the CSV header row split on `,` and trimmed,
  the extension dispatch between `.csv`, `.json` and anything else, and the
  schema string `Table: <name>, Columns: <columns joined by ", ">`;
- `renderResults` and the chart-type choice of `renderChart`, as a function
  from the previous view record and a parsed answer to the new view record;
- the two request outcomes around them: an answer is rendered or raises an
  alert that leaves the view unchanged, and the suggestion list is either the
  parsed questions or one error item.

Modules: `Wrappers` (Option, Result), `JsStrings` (the JavaScript string
primitives), `Extraction` (`extractJSON`), `Upload` (columns and schema),
`Display` (view updates and request outcomes).

The guard `end !== -1` in `extractJSON` (script.js:163, and `endArr !== -1`
at script.js:166) reads as "a closing bracket exists", but `end` is
`lastIndexOf(...) + 1`, which is never -1, so the guard always holds. The model follows the code: whenever a `{`
occurs the brace branch is taken, and with no `}` after the first `{` the
swapped `substring` returns the text between the last `}` (or the start) and
the first `{`. `BraceBranch` and `UnclosedBraceGivesPrefix` state this.

## Model

| member | source | states |
|---|---|---|
| `JsStrings.IndexOf` | script.js:162 | the result is -1 exactly when the character is absent, and otherwise a position holding it with no earlier occurrence |
| `JsStrings.LastIndexOf` | script.js:163 | the result is -1 exactly when the character is absent, and otherwise a position holding it with no later occurrence |
| `JsStrings.Substring` | script.js:164 | the result is a slice no longer than the text: `s[a..b]` for in-range `a <= b`, and `s[b..a]` when the arguments come in the other order |
| `JsStrings.SubstringSwaps` | script.js:164 | substring gives the same slice whichever order its two positions come in |
| `JsStrings.Split` | script.js:70-71 | splitting on one character never gives an empty array |
| `JsStrings.SplitCount` | script.js:70-71 | a split has one more piece than the text has separators |
| `JsStrings.SplitPiecesAvoidSeparator` | script.js:70-71 | no piece of a split contains the separator |
| `JsStrings.JoinSplit` | script.js:71 | joining the pieces of a split with the same separator gives the original text back |
| `JsStrings.SplitAround` | script.js:70-71 | splitting a text at one separator gives the pieces of the part before it followed by the pieces of the part after it |
| `JsStrings.SplitJoin` | script.js:71 | splitting a join of separator-free pieces gives the pieces back |
| `JsStrings.Join` | script.js:80 | joining no pieces gives the empty text, one piece gives that piece, and otherwise the text starts with the first piece followed by the separator |
| `JsStrings.EndsWith` | script.js:69-72 | a name ends with a suffix exactly when its last characters are the suffix's, position by position |
| `JsStrings.LeadingSpacesAreWhitespace` | script.js:71 | the leading run trim removes is all whitespace |
| `JsStrings.TrailingSpacesAreWhitespace` | script.js:71 | the trailing run trim removes is all whitespace |
| `JsStrings.Trim` | script.js:71 | the result has no whitespace at either end and is the slice of the text that starts where the leading whitespace ends |
| `JsStrings.TrimIsSlice` | script.js:71 | every character outside the slice trim keeps is whitespace |
| `JsStrings.TrimTrimmed` | script.js:71 | trimming a text with no whitespace at its ends leaves it unchanged |
| `JsStrings.TrimLeadingSpace` | script.js:71 | a leading space makes no difference to trim |
| `JsStrings.TrimAll` | script.js:71 | mapping trim over the pieces keeps their number and trims each piece |
| `Extraction.ExtractJson` | script.js:161-169 | the extracted text is never longer than the reply |
| `Extraction.BraceBranch` | script.js:162-164 | when the text has a `{`, the result is the slice from the first `{` through the last `}` if that `}` is not earlier, and otherwise the text between the last `}` (or the start) and the first `{`; brackets `[` `]` play no part |
| `Extraction.BracketBranch` | script.js:165-167 | with no `{` but a `[`, the same rule applies to the first `[` and the last `]` |
| `Extraction.Fallback` | script.js:168 | with neither `{` nor `[`, the text is returned unchanged |
| `Extraction.UnclosedBraceGivesPrefix` | script.js:162-164 | a text with a `{` and no `}` gives the prefix before its first `{` |
| `Extraction.ObjectInProse` | script.js:162-164 | an object surrounded by prose with no `{` before it and no `}` after it is extracted exactly |
| `Extraction.ArrayInProse` | script.js:165-167 | an array surrounded by prose, in a text with no `{`, no `[` before it and no `]` after it, is extracted exactly |
| `Extraction.ExtractIsSlice` | script.js:161-169 | the result is always one contiguous slice of the reply |
| `Extraction.ObjectIsFixedPoint` | script.js:162-164 | a text that starts with `{` and ends with `}` is returned as it is |
| `Extraction.ExtractIdempotentOnObjects` | script.js:161-169 | extracting again from an extracted object changes nothing |
| `Extraction.ArrayOfObjectsLosesBrackets` | script.js:162-167 | any array whose text between the outer brackets starts with `{` and ends with `}` (such as an array of objects) loses its outer brackets, because the `{` branch wins |
| `Upload.FirstLine` | script.js:70-71 | the first line is the prefix of the text before its first line feed, and holds none |
| `Upload.CsvColumns` | script.js:70-71 | the CSV branch always yields at least one column, each trimmed |
| `Upload.CsvColumnsAreHeaderFields` | script.js:70-71 | the CSV columns are the comma-separated fields of the first line, each trimmed; they number one more than the commas of the first line, each is trimmed and comma-free, and the untrimmed fields joined with `,` give the first line back |
| `Upload.CsvExample` | script.js:69-71 | the text `a,b,c` over `1,2,3` gives the columns `a`, `b`, `c` |
| `Upload.UploadColumns` | script.js:69-77 | a `.csv` name takes the CSV columns, a `.json` name the keys of a non-empty array's first element (none for anything else the file holds), and any other name no columns |
| `Upload.Schema` | script.js:80 | the stored schema starts with `Table: `, then the file name, then `, Columns: ` |
| `Upload.UploadReplacesNoFileSchema` | script.js:80 | after any upload the schema differs from the initial no-file schema |
| `Upload.SchemaShape` | script.js:80 | the schema is `Table: `, the file name, `, Columns: ` and the columns joined with `, `, which is empty when there are no columns |
| `Upload.ColumnTextRoundTrip` | script.js:71-80 | splitting the joined column list on `,` and trimming gives back any non-empty list of trimmed, comma-free columns |
| `Upload.CsvSchemaRoundTrip` | script.js:69-80 | after a CSV upload the schema's column part reads back as exactly the file's columns |
| `Display.Keys` | script.js:179 | the header of a row lists its keys in order |
| `Display.Values` | script.js:183 | the cells of a row list its values in order |
| `Display.BodyRows` | script.js:182-184 | the table body has one row per result row, holding that row's values |
| `Display.ChartKindOf` | script.js:194-201 | the chart is a pie chart exactly when the given type is `pie`, and a bar chart otherwise, including when no type is given |
| `Display.Render` | script.js:171-192 | the SQL text changes only for a truthy `sql_query`; the empty-state row is shown exactly when `result_data` is missing or empty, and otherwise the headers are the first row's keys and the body every row's values; a chart is drawn only when there are rows, else the previous one stays; the explanation falls back to `Done.` and is never blank |
| `Display.RenderIdempotent` | script.js:171-192 | rendering the same answer twice shows the same as rendering it once |
| `Display.CompleteAnswerReplacesView` | script.js:171-192 | an answer with a truthy `sql_query` and rows determines the whole view, whatever was shown before |
| `Display.EmptyAnswerKeepsSqlAndChart` | script.js:172-191 | an answer with a falsy `sql_query` and no rows keeps the previous SQL text and chart and sets only the table's empty-state row and the explanation |
| `Display.Answer` | script.js:124-158 | an empty question does nothing; a failed call or parse raises a `Gemini Error: ` alert carrying the error message and leaves the view unchanged; a successful call and parse raise no alert and render the extracted, parsed answer over the previous view, and these are the only ways to get no alert |
| `Display.Suggestions` | script.js:105-120 | the suggestion list is the parsed questions, or the single item `Error: ` plus the message when the call or the parse failed |

## Left out

- The call to the generation service (`callGemini`, script.js:36-54) is not modelled: its outcome enters as a `Reply`, either the generated text or the error message it raised.
- `JSON.parse`, `Array.isArray` and `Object.keys` belong to the JavaScript engine: an uploaded JSON file enters as a `JsonUpload` value, and the answer and suggestion parses enter as parse functions that may fail. A parsed answer is reduced to its string-valued fields (`Response`); numbers, objects or other non-string values in `sql_query`, `explanation` or `chart_type`, and a `result_data` that is not an array, are not modelled.
- An exception raised inside `renderResults` after it has begun changing the page (a partial update followed by the alert) is not modelled; the parse function is taken to reject every answer `renderResults` cannot render.
- The globals `currentSchema` and `chartInstance` (script.js:7-8, 80, 198-200) are modelled as values: `Upload.Schema` is the new schema and `View.chart` the current chart. Update in place, and destroying the previous chart before drawing the next, are not captured.
- DOM wiring is not modelled: the welcome-screen timers (script.js:27-33), the `FileReader` callback and the missing-file check (script.js:58-84), the file status text, `updateSchemaUI` (script.js:86-91), the suggestion click handler and `setLoading` (script.js:214-218). The HTML strings assigned to `innerHTML` (script.js:180, 183, 188) are not modelled: the view holds the table as its header cells and rows of cells, the SQL text and the explanation, not the markup built from them.
- Chart.js itself is not modelled: the chart is its type and the rows it plots; the labels and series taken from the first two keys (script.js:196-209) and the colours are not.
- The prompt texts (script.js:98-103, 130-147) are fixed templates and are not modelled beyond the schema string they embed.
- The asynchronous sequencing and the disabled button that keeps one answer request in flight are about scheduling, not logic, and are not modelled.
- Strings are sequences of Unicode scalar values, while JavaScript indexes UTF-16 code units; positions differ for text outside the Basic Multilingual Plane. The brackets, separators and whitespace involved are all single code units.
