# AI assistant page: answer renderer and response handling

This project models the decision logic of the medical-database AI assistant
page (`src/app/ai-assistant/page.tsx`). A user types a natural-language
question. The page posts it to the query endpoint and gets back a JSON
response `{success, query?, answer?, error?}`. It then shows either an
apology, or the generated SQL query together with a rendering of the
untyped `answer`.

The model has three parts.

- **`renderAnswer`** is `RenderAnswer.Render`. It tries its guards in source order:
  1. a falsy answer gives "No data available";
  2. a non-array gives one block holding `String(answer)`;
  3. `[]` gives "No results found";
  4. when element 0 has a `typeof` other than `"object"`, each element gets one block;
  5. otherwise the page builds a table. The header is `Object.keys` of element 0, and each row is that element's own `Object.values` as strings.
- **The JavaScript semantics the renderer relies on** are written out, not assumed:
  - ToBoolean and `typeof` are in `JsValue`.
  - `JsObject` covers how `JSON.parse` builds an object from members with repeated names: the first position is kept and the last value wins. It also covers the OrdinaryOwnPropertyKeys order behind `Object.keys` and `Object.values`: array-index names come first in ascending numeric order, then the other names in the order they first appear.
  - `String(v)` is in `JsString`. It covers Array.prototype.join for arrays. An object converts to `"[object Object]"`, unless it has an own `"toString"` member; then the conversion throws a TypeError.
- **The page around the renderer** is `AssistantPage`:
  - the submit button's enable rule, with `String.prototype.trim`'s white-space set spelled out;
  - the response area: nothing, the apology, the query plus results, or a page render that fails because `renderAnswer` threw;
  - the failure record `{success: false, error: "Failed to connect to the server"}`;
  - a `Page` class holding the three state variables. The submit handler is stepped through them as `BeginSubmit` before the awaits and `FinishSubmit` after them.

How a number is printed (`String(n)`, double-precision formatting) is a
parameter `fmt: real -> string` wherever a number may reach the screen. The
result of the network request is a parameter of `FinishSubmit`.

Three behaviours of the code deserve note:

- The renderer is not total. It throws a TypeError in three cases, and `Render` returns `Thrown(...)` for them:
  - for `Object.keys(null)` when element 0 is `null`;
  - for `Object.values(null)` when any later row is `null`;
  - for `String(obj)` when an object has an own `"toString"` member, which in decoded JSON is never a function.

  `renderAnswer` is called while the page's own elements are built (page.tsx:187), so the error escapes the page's render. Neither the SQL query nor any result is shown; the response area is then `Crashed(...)`.
- A non-array object is shown as one block holding `String(obj)`, normally `"[object Object]"`.
- Table rows are not realigned to the header. A row lists its own values in its own key order, so it can hold more or fewer cells than the header has columns (`ExampleMisalignedRow`).

## Model

| member | source | states |
|---|---|---|
| JsValue.Truthy | src/app/ai-assistant/page.tsx:47 | ToBoolean on a decoded value; characterised by `JsValue.FalsyValues` |
| JsValue.FalsyValues | src/app/ai-assistant/page.tsx:47 | an answer is falsy exactly when it is missing, `null`, `false`, `0` or `""` |
| JsValue.TypeOf | src/app/ai-assistant/page.tsx:64 | `typeof` reports `"object"` exactly for `null`, arrays and objects |
| RenderAnswer.Render | src/app/ai-assistant/page.tsx:46-104 | `renderAnswer`, the guards in source order; each display is characterised by the lemmas below, from `RenderAnswer.NoDataIffFalsy` to `RenderAnswer.FirstElementChoosesBranch` |
| RenderAnswer.RowCells | src/app/ai-assistant/page.tsx:93-97 | one table row, `Object.values(row).map(String)`; characterised by `RenderAnswer.RowCellsFollowOwnKeys` and `RenderAnswer.NullRowThrows` |
| RenderAnswer.NoDataIffFalsy | src/app/ai-assistant/page.tsx:47 | "No data available" is shown for the five falsy answers and for no other answer |
| RenderAnswer.NonArrayIsSingleBlock | src/app/ai-assistant/page.tsx:50-56 | a truthy non-array is one block holding `String(answer)`: a string as itself, `true` as "true", a number formatted, an object as "[object Object]"; it throws exactly when the value hides an own `toString` |
| RenderAnswer.NoResultsIffEmptyArray | src/app/ai-assistant/page.tsx:59-61 | "No results found" is shown for `[]` and for nothing else |
| RenderAnswer.ScalarFirstGivesBlocks | src/app/ai-assistant/page.tsx:64-73 | when element 0 is not of type "object", the display is one block per element, in order, each holding `String(element)`; it throws, and shows no blocks, exactly when an element hides an own `toString` |
| RenderAnswer.StringAll | src/app/ai-assistant/page.tsx:67-71 | mapping `String` over values succeeds exactly when every value converts; the result then has the same length and holds each value's string at its position |
| RenderAnswer.TableFromFirstKeys | src/app/ai-assistant/page.tsx:77-103 | when element 0 is a non-null object or array, the header is `Object.keys(element 0)`; the table has exactly one row per element, each row being that element's own `Object.values` as strings; the display is a table exactly when every row converts, and otherwise the render throws |
| RenderAnswer.TableRows | src/app/ai-assistant/page.tsx:91-99 | building the rows succeeds exactly when every row converts; the result then holds one row per element, in order |
| RenderAnswer.TableRowsFirstFailure | src/app/ai-assistant/page.tsx:91-97 | when rows fail, the error that escapes is that of the first failing row |
| RenderAnswer.NullFirstThrows | src/app/ai-assistant/page.tsx:83 | a `null` element 0 takes the table branch and `Object.keys(null)` throws a TypeError |
| RenderAnswer.NullRowThrows | src/app/ai-assistant/page.tsx:93 | a `null` row after rows that convert makes `Object.values(null)` throw |
| RenderAnswer.NestedArrayHeader | src/app/ai-assistant/page.tsx:83 | a nested array as element 0 gives the index names "0", "1", ... as the header |
| RenderAnswer.FirstElementChoosesBranch | src/app/ai-assistant/page.tsx:64-77 | only element 0 decides between the blocks and the table, whatever follows it |
| RenderAnswer.RowCellsFollowOwnKeys | src/app/ai-assistant/page.tsx:93-97 | cell j of a row is `String` of that row's value under its own key j, so the cells follow the row's own key order, not the header |
| RenderAnswer.TwoPlainRows | src/app/ai-assistant/page.tsx:77-103 | two records whose names are distinct within each record and none of which is an array index give the first record's names as header and each record's values, in its own order, as its row |
| RenderAnswer.ExampleScalarList | src/app/ai-assistant/page.tsx:64-73 | `[1, 2, 3]` renders as three blocks in order |
| RenderAnswer.ExampleCityTable | src/app/ai-assistant/page.tsx:77-103 | two records with the same keys render as an aligned two-column table |
| RenderAnswer.ExampleMisalignedRow | src/app/ai-assistant/page.tsx:91-97 | a second record with reordered and extra keys renders with its "b" value under the "a" column and a third cell |
| JsObject.Parsed | src/app/ai-assistant/page.tsx:33 | the own properties `JSON.parse` gives an object; characterised by `JsObject.ParsedValues` and `JsObject.ParsedOrder` |
| JsObject.ObjectKeys | src/app/ai-assistant/page.tsx:83 | `Object.keys(v)` on any decoded value; characterised by `JsObject.OwnKeysAreMemberNames`, `JsObject.OwnKeysIndexFirst`, `JsObject.OwnKeysDefinitionOrder`, `JsObject.IndexNames` and `JsObject.KeysValuesAgree` |
| JsObject.ObjectValues | src/app/ai-assistant/page.tsx:93 | `Object.values(v)` on any decoded value; characterised by `JsObject.OwnValuesMatchKeys` and `JsObject.KeysValuesAgree` |
| JsObject.OwnKeysAreMemberNames | src/app/ai-assistant/page.tsx:83 | `Object.keys` of a decoded object lists every member name exactly once, repeated names included |
| JsObject.OwnKeysIndexFirst | src/app/ai-assistant/page.tsx:83 | array-index names come first, in strictly ascending numeric order |
| JsObject.OwnKeysDefinitionOrder | src/app/ai-assistant/page.tsx:83 | every other name follows, in the order it first appears among the members |
| JsObject.OwnValuesMatchKeys | src/app/ai-assistant/page.tsx:93 | `Object.values` lists, position by position, the value of the last member with the name `Object.keys` lists there |
| JsObject.ParsedValues | src/app/ai-assistant/page.tsx:33 | each property the decoded object holds has the value of the last member with that name |
| JsObject.ParsedOrder | src/app/ai-assistant/page.tsx:33 | the decoded object's properties keep the order in which their names first appear |
| JsObject.PlainObjectKeepsOrder | src/app/ai-assistant/page.tsx:83-93 | an object with distinct names, none an array index, lists its properties exactly in member order |
| JsObject.GetProperty | src/app/ai-assistant/page.tsx:168-187 | reading `success`, `query` or `answer` off a non-null response finds the last member of that name in an object, and nothing on a boolean, number, string or array |
| JsObject.IndexNames | src/app/ai-assistant/page.tsx:83 | the keys of an array or string of length n are n canonical numerals, the i-th denoting i |
| JsObject.KeysValuesAgree | src/app/ai-assistant/page.tsx:83-93 | `Object.keys` and `Object.values` throw on exactly the same value (`null`) and otherwise have the same length |
| JsString.ToStr | src/app/ai-assistant/page.tsx:53 | `String` of a string is that string, and the only error it raises is the failed primitive conversion |
| JsString.ToStrThrowsIff | src/app/ai-assistant/page.tsx:53 | `String(v)` throws exactly when v is, or holds inside arrays, an object with an own `toString` member |
| JsString.Join | src/app/ai-assistant/page.tsx:53 | Array.prototype.join(",") as `String` applies it to an array; characterised by `JsString.JoinTexts`, `JsString.ToStrThrowsIff` and, for arrays of strings, `JsString.JoinStrings` |
| JsString.JoinTexts | src/app/ai-assistant/page.tsx:53 | an array converts to its elements' texts separated by ",", where a `null` element contributes "" and any other element its `String` |
| JsString.ExampleNullElement | src/app/ai-assistant/page.tsx:53 | `[null, 2]` converts to "," followed by the formatted 2 |
| JsString.JoinStrings | src/app/ai-assistant/page.tsx:53 | an array of strings converts to its elements joined by ","; the empty array converts to "" |
| AssistantPage.TrimStart | src/app/ai-assistant/page.tsx:154 | the result is the longest suffix not starting with white space, and only white space is dropped |
| AssistantPage.TrimEnd | src/app/ai-assistant/page.tsx:154 | the result is the longest prefix not ending with white space, and only white space is dropped |
| AssistantPage.Trim | src/app/ai-assistant/page.tsx:154 | `String.prototype.trim`, `TrimEnd` after `TrimStart`; characterised by their contracts and `AssistantPage.TrimEmptyIff` |
| AssistantPage.TrimEmptyIff | src/app/ai-assistant/page.tsx:154 | a query trims to "" exactly when it is all white space |
| AssistantPage.SubmitDisabled | src/app/ai-assistant/page.tsx:154 | disabled while loading or when the trimmed query is the falsy ""; characterised by `AssistantPage.SubmitDisabledIff` |
| AssistantPage.SubmitDisabledIff | src/app/ai-assistant/page.tsx:154 | the button is disabled exactly while loading or when the query is all white space |
| AssistantPage.ResponseView | src/app/ai-assistant/page.tsx:166-194 | what the response area shows; characterised by `AssistantPage.FalsyResponseHidden`, `AssistantPage.ApologyIff`, `AssistantPage.AnsweredIff` and `AssistantPage.CrashedIff` |
| AssistantPage.FalsyResponseHidden | src/app/ai-assistant/page.tsx:166 | nothing is shown exactly for a `null`, `false` or `""` response; a `0` response shows as its text |
| AssistantPage.ApologyIff | src/app/ai-assistant/page.tsx:168-194 | the apology is shown exactly for a truthy response whose `success` is missing or falsy; `error` plays no part |
| AssistantPage.AnsweredIff | src/app/ai-assistant/page.tsx:168-188 | query and results are shown exactly when `success` is truthy and `renderAnswer(answer)` does not throw, with `query` and the rendering read from the response |
| AssistantPage.CrashedIff | src/app/ai-assistant/page.tsx:168-188 | when `success` is truthy and `renderAnswer(answer)` throws, the page's render fails with that TypeError and nothing of the response is shown |
| AssistantPage.NullRecordCrashesPage | src/app/ai-assistant/page.tsx:168-188 | a successful response whose answer starts with `null` crashes the page with the TypeError of `Object.keys(null)` |
| AssistantPage.OtherMembersIgnored | src/app/ai-assistant/page.tsx:166-194 | a further member under any name other than `success`, `query` and `answer` (such as `error`) leaves the view unchanged |
| AssistantPage.FailureShowsApology | src/app/ai-assistant/page.tsx:37-40 | the failure record shows the apology |
| AssistantPage.Page.constructor | src/app/ai-assistant/page.tsx:18-20 | the page starts with an empty query, not loading, and no response |
| AssistantPage.Page.SetQuery | src/app/ai-assistant/page.tsx:147 | typing replaces the query only, and the button is then enabled exactly when not loading and the query is not all white space |
| AssistantPage.Page.BeginSubmit | src/app/ai-assistant/page.tsx:24-31 | submitting sets loading, sends the current query as the question, keeps the old response, and disables the button |
| AssistantPage.Page.FinishSubmit | src/app/ai-assistant/page.tsx:33-43 | when the request settles, the response is the body or the failure record, loading is reset on both paths, and the query is left as typed |

## Left out

- The `fetch` call to the query endpoint and `res.json()` (page.tsx:26-33) are network I/O. Their result is the `FetchOutcome` parameter of `Page.FinishSubmit`: a decoded body (whatever the HTTP status) or a rejection.
- `console.error` in the catch block (page.tsx:36) is logging with no effect on state.
- JSX markup, CSS classes, icons, the back link, the button label and `AuthCheck` are presentation. `AuthCheck` is not part of this model.
- React's rendering of `response.query` inside `<pre>` (page.tsx:177) is not modelled. The model keeps the raw value: an object there would make React throw, and `null` or a boolean shows nothing.
- `String(number)`: double-precision formatting is not modelled. It is the parameter `fmt`. Numbers are the finite values the decoder produced; overflow to Infinity and the sign of zero are not represented.
- Strings are sequences of Unicode scalar values, not UTF-16 code units. When a string is a table row, its `Object.values` cells count characters. For characters outside the Basic Multilingual Plane this differs from JavaScript, which counts code units.
- Property reads are modelled only for the three names the page reads (`response.success`, `.query`, `.answer`) and only on a non-null response: `GetProperty` requires both. None of these names is inherited from any prototype, so an object's own members are the whole answer. Reads of other names, such as `length` or `toString`, are not modelled.
- What appears once the page's render has failed (React discarding the tree, the framework's error screen) is not modelled. `Crashed` records only that the render failed, and with which TypeError.
- React's batching and re-render scheduling are not modelled. The handler is modelled as two atomic steps around the awaits: `BeginSubmit` and `FinishSubmit`.
- The login page, dashboard, home page, widgets and user menu are fetch calls, chart wiring, routing and a localStorage flag. They have no logic that this model covers.
