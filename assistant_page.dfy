/**
 * The assistant page around the renderer: the submit button's enable rule,
 * the response area, and the page state that a submission steps through.
 */
module AssistantPage {
  import opened JsValue
  import opened JsObject
  import opened JsString
  import opened RenderAnswer

  // ---------------------------------------------------------------------
  // String.prototype.trim (section 22.1.3.32 of ECMA-262, 2022 edition)

  /** WhiteSpace and LineTerminator code points, the characters trim strips. */
  predicate IsTrimmable(c: char)
  {
    // WhiteSpace: TAB, VT, FF, ZWNBSP and the space separators (category Zs)
    || c == '\U{0009}' || c == '\U{000B}' || c == '\U{000C}' || c == '\U{FEFF}'
    || c == '\U{0020}' || c == '\U{00A0}' || c == '\U{1680}'
    || ('\U{2000}' <= c <= '\U{200A}')
    || c == '\U{202F}' || c == '\U{205F}' || c == '\U{3000}'
    // LineTerminator: LF, CR, LINE SEPARATOR, PARAGRAPH SEPARATOR
    || c == '\U{000A}' || c == '\U{000D}' || c == '\U{2028}' || c == '\U{2029}'
  }

  predicate AllTrimmable(s: string)
  {
    forall i | 0 <= i < |s| :: IsTrimmable(s[i])
  }

  /** Drops the leading white space: the result is the longest suffix of s
      that does not start with white space. */
  function TrimStart(s: string): (r: string)
    ensures |r| <= |s| && r == s[|s| - |r|..]
    ensures forall i | 0 <= i < |s| - |r| :: IsTrimmable(s[i])
    ensures r != [] ==> !IsTrimmable(r[0])
  {
    if s != [] && IsTrimmable(s[0]) then TrimStart(s[1..]) else s
  }

  /** Drops the trailing white space: the result is the longest prefix of s
      that does not end with white space. */
  function TrimEnd(s: string): (r: string)
    ensures |r| <= |s| && r == s[..|r|]
    ensures forall i | |r| <= i < |s| :: IsTrimmable(s[i])
    ensures r != [] ==> !IsTrimmable(r[|r| - 1])
  {
    if s != [] && IsTrimmable(s[|s| - 1]) then TrimEnd(s[..|s| - 1]) else s
  }

  function Trim(s: string): string
  {
    TrimEnd(TrimStart(s))
  }

  /** A string trims to "" exactly when it is all white space. */
  lemma TrimEmptyIff(s: string)
    ensures Trim(s) == "" <==> AllTrimmable(s)
  {
    var t := TrimStart(s);
    if Trim(s) != "" {
      assert !IsTrimmable(Trim(s)[0]);
      assert Trim(s)[0] == s[|s| - |t|];
    }
  }

  // ---------------------------------------------------------------------
  // The submit button

  /** `isLoading || !query.trim()`: the empty string is the one falsy string. */
  predicate SubmitDisabled(isLoading: bool, query: string)
  {
    isLoading || !Truthy(JStr(Trim(query)))
  }

  /** The button is disabled exactly while a request is loading or when the
      query holds nothing but white space (the empty query included). */
  lemma SubmitDisabledIff(isLoading: bool, query: string)
    ensures SubmitDisabled(isLoading, query) <==> isLoading || AllTrimmable(query)
  {
    TrimEmptyIff(query);
  }

  // ---------------------------------------------------------------------
  // The response area

  datatype ResponseArea =
    | Hidden                                          // nothing is rendered
    | Shown(text: string)                             // a falsy 0 is rendered as its text
    | Apology                                         // the fixed "couldn't understand" message
    | Answered(query: Option<Json>, result: Display)  // the SQL query, then renderAnswer(answer)
    | Crashed(error: TypeError)                       // renderAnswer threw while the page rendered

  /** `response && (response.success ? <query and results> : <apology>)`.
      renderAnswer runs while the page's own elements are being built, so a
      TypeError it throws escapes the page's render: neither the query nor
      any result reaches the screen. */
  function ResponseView(response: Json, fmt: NumberFormat): ResponseArea
  {
    if !Truthy(response) then
      if response.JNum? then Shown(fmt(response.n)) else Hidden
    else if PresentAndTruthy(GetProperty(response, "success")) then
      match Render(GetProperty(response, "answer"), fmt)
      case Thrown(e) => Crashed(e)
      case result => Answered(GetProperty(response, "query"), result)
    else
      Apology
  }

  /** A truthy response whose `success` is missing or falsy shows the
      apology, and nothing else does; the `error` text plays no part. */
  lemma ApologyIff(response: Json, fmt: NumberFormat)
    ensures ResponseView(response, fmt) == Apology <==>
      Truthy(response) && !(response.JObj? && PresentAndTruthy(LastValue(response.members, "success")))
  {
  }

  /** A response object whose last `success` member is truthy, and whose
      `answer` renders without throwing, shows its `query` and the rendering
      of its `answer`, each read as the last member of that name. */
  lemma AnsweredIff(response: Json, fmt: NumberFormat)
    ensures ResponseView(response, fmt).Answered? <==>
      && response.JObj? && PresentAndTruthy(LastValue(response.members, "success"))
      && !Render(LastValue(response.members, "answer"), fmt).Thrown?
    ensures ResponseView(response, fmt).Answered? ==>
      && ResponseView(response, fmt).query == LastValue(response.members, "query")
      && ResponseView(response, fmt).result == Render(LastValue(response.members, "answer"), fmt)
  {
  }

  /** A successful response whose `answer` makes renderAnswer throw shows
      nothing of the response area: the page's render fails with that error. */
  lemma CrashedIff(response: Json, fmt: NumberFormat)
    ensures ResponseView(response, fmt).Crashed? <==>
      && response.JObj? && PresentAndTruthy(LastValue(response.members, "success"))
      && Render(LastValue(response.members, "answer"), fmt).Thrown?
    ensures ResponseView(response, fmt).Crashed? ==>
      ResponseView(response, fmt).error == Render(LastValue(response.members, "answer"), fmt).error
  {
  }

  /** A successful response whose answer starts with a null record crashes
      the page with the TypeError of `Object.keys(null)`. */
  lemma NullRecordCrashesPage(ms: seq<Property>, rest: seq<Json>, fmt: NumberFormat)
    requires LastValue(ms, "success") == Some(JBool(true))
    requires LastValue(ms, "answer") == Some(JArr([JNull] + rest))
    ensures ResponseView(JObj(ms), fmt) == Crashed(CannotConvertNullToObject)
  {
    NullFirstThrows([JNull] + rest, fmt);
  }

  /** A falsy response renders nothing, except 0, which renders as "0". */
  lemma FalsyResponseHidden(response: Json, fmt: NumberFormat)
    ensures ResponseView(response, fmt) == Hidden <==> response in {JNull, JBool(false), JStr("")}
    ensures response == JNum(0.0) ==> ResponseView(response, fmt) == Shown(fmt(0.0))
  {
  }

  /** The view reads only the `success`, `query` and `answer` members: a
      further member under any other name, `error` included, changes nothing. */
  lemma OtherMembersIgnored(ms: seq<Property>, k: string, v: Json, fmt: NumberFormat)
    requires k != "success" && k != "query" && k != "answer"
    ensures ResponseView(JObj(ms + [(k, v)]), fmt) == ResponseView(JObj(ms), fmt)
  {
    var ms' := ms + [(k, v)];
    assert ms'[..|ms'| - 1] == ms;
  }

  const FailureMessage: string := "Failed to connect to the server"

  /** The record written when the request or its decoding fails. */
  const FailureResponse: Json := JObj([("success", JBool(false)), ("error", JStr(FailureMessage))])

  /** A failed request shows the apology. */
  lemma FailureShowsApology(fmt: NumberFormat)
    ensures ResponseView(FailureResponse, fmt) == Apology
  {
    ApologyIff(FailureResponse, fmt);
  }

  // ---------------------------------------------------------------------
  // The page state

  /** What awaiting `fetch(...)` and then `res.json()` produced: the decoded
      body, or a rejection of either promise. */
  datatype FetchOutcome = Body(data: Json) | Failed

  /** The three state variables of the page component. */
  class Page {
    var query: string
    var isLoading: bool
    var response: Json   // JNull until the first request settles

    constructor()
      ensures query == "" && !isLoading && response == JNull
    {
      query := "";
      isLoading := false;
      response := JNull;
    }

    predicate CanSubmit()
      reads this
    {
      !SubmitDisabled(isLoading, query)
    }

    /** The text area's change handler. */
    method SetQuery(q: string)
      modifies this
      ensures query == q && isLoading == old(isLoading) && response == old(response)
      ensures CanSubmit() <==> !isLoading && !AllTrimmable(q)
    {
      query := q;
      SubmitDisabledIff(isLoading, query);
    }

    /** The synchronous part of the submit handler: loading starts and the
        question sent is the query as it stands now. The previous response
        stays on screen. */
    method BeginSubmit() returns (question: string)
      modifies this
      ensures question == query && query == old(query) && isLoading && response == old(response)
      ensures !CanSubmit()
    {
      isLoading := true;
      question := query;
    }

    /** The part after the awaits: the response is stored (or the failure
        record on a rejection) and loading ends on both paths. The query is
        whatever the user has typed meanwhile. */
    method FinishSubmit(outcome: FetchOutcome)
      modifies this
      ensures outcome.Body? ==> response == outcome.data
      ensures outcome.Failed? ==> response == FailureResponse
      ensures !isLoading && query == old(query)
      ensures CanSubmit() <==> !AllTrimmable(query)
    {
      match outcome {
        case Body(data) => response := data;
        case Failed => response := FailureResponse;
      }
      isLoading := false;
      SubmitDisabledIff(isLoading, query);
    }
  }
}
