/**
 * The request check and the reply handling of the recommendation agent's
 * `POST /recommend` (src/recommendation-agent/app.py).
 *
 * The request body must be a JSON object with a `query` field. The query is
 * sent to the generative model; the model's reply text is stripped, and the
 * span from its first `{` to its last `}` is taken as the JSON answer.
 *
 * The model call is the parameter `model` (`None` for any exception it
 * raises) and `json.loads` is the parameter `loads` (whether the text is a
 * JSON document).
 */
module RecommendationAgent {
  import opened Wrappers
  import opened PyStr

  /** A JSON object request body: field name to value (values are opaque text here). */
  type Body = map<string, string>

  /** Why the request was refused with 400. */
  datatype Rejection = MissingQuery

  /** Why the request ended in 500. */
  datatype Reason = ModelFailed | NoJsonObject | InvalidJson

  /** The HTTP answer of `/recommend`; `Ok200` carries the span that `json.loads` accepted (the body is that value re-serialised). */
  datatype Response = Ok200(json: string) | BadRequest400 | ServerError500(reason: Reason)

  /**
   * `if not data or 'query' not in data`: no body, an empty object or an
   * object without `query` is refused; otherwise the query is handed on.
   */
  function ValidateRequest(data: Option<Body>): (r: Result<string, Rejection>)
    ensures r.Success? <==> data.Some? && "query" in data.value
    ensures r.Success? ==> r.value == data.value["query"]
  {
    if data.None? || data.value == map[] || "query" !in data.value then Failure(MissingQuery)
    else Success(data.value["query"])
  }

  /**
   * The span of `text` from its first `{` to its last `}` inclusive.
   * Refused when either brace is missing: `find` gives -1, or `rfind` gives
   * -1 so that the end index is 0. When the last `}` comes before the first
   * `{` the Python slice is empty.
   */
  function BraceSpan(text: string): (r: Result<string, Reason>)
    ensures r.Failure? ==> r.error == NoJsonObject
    ensures r.Success? ==> |r.value| <= |text|
  {
    var jsonStart := Find(text, '{');
    var jsonEnd := RFind(text, '}') + 1;
    if jsonStart == -1 || jsonEnd == 0 then Failure(NoJsonObject)
    else Success(if jsonStart <= jsonEnd then text[jsonStart..jsonEnd] else "")
  }

  /** The JSON text taken from the model's reply: the brace span of the stripped reply. */
  function ExtractJson(reply: string): (r: Result<string, Reason>)
    ensures r.Failure? ==> r.error == NoJsonObject
    ensures r.Success? ==> |r.value| <= |reply|
  {
    BraceSpan(Strip(reply))
  }

  /** The whole handler, with the model and the JSON parser as parameters. */
  function Recommend(data: Option<Body>, model: string -> Option<string>, loads: string -> bool): (r: Response)
    ensures r == BadRequest400 <==> ValidateRequest(data).Failure?
    ensures r.Ok200? ==> loads(r.json)
    ensures ValidateRequest(data).Success? && model(ValidateRequest(data).value).None? ==>
              r == ServerError500(ModelFailed)
    ensures ValidateRequest(data).Success? && model(ValidateRequest(data).value).Some? ==>
              var span := ExtractJson(model(ValidateRequest(data).value).value);
              && (span.Failure? ==> r == ServerError500(NoJsonObject))
              && (span.Success? ==> (r == Ok200(span.value) <==> loads(span.value)))
              && (span.Success? && !loads(span.value) ==> r == ServerError500(InvalidJson))
  {
    match ValidateRequest(data)
    case Failure(_) => BadRequest400
    case Success(query) =>
      match model(query)
      case None => ServerError500(ModelFailed)
      case Some(reply) =>
        match ExtractJson(reply)
        case Failure(reason) => ServerError500(reason)
        case Success(span) => if loads(span) then Ok200(span) else ServerError500(InvalidJson)
  }

  /** A refused request gets 400 whatever the model would have answered: the model is not consulted. */
  lemma RejectedBeforeModelCall(data: Option<Body>, model1: string -> Option<string>,
                                model2: string -> Option<string>, loads: string -> bool)
    requires data.None? || "query" !in data.value
    ensures Recommend(data, model1, loads) == BadRequest400
    ensures Recommend(data, model2, loads) == BadRequest400
  {
  }

  /** Extraction fails exactly when the reply lacks a `{` or lacks a `}`; stripping never removes a brace. */
  lemma ExtractFailsIffBraceMissing(reply: string)
    ensures ExtractJson(reply).Failure? <==> '{' !in reply || '}' !in reply
  {
    StripKeepsNonSpace(reply, '{');
    StripKeepsNonSpace(reply, '}');
  }

  /**
   * On success, with `first` the first `{` and `last` the last `}` of the
   * stripped reply: if `first` precedes `last` the result is the text from
   * `first` to `last` inclusive, so it starts with `{`, ends with `}`, and no
   * `}` follows it; otherwise the result is empty.
   */
  lemma ExtractSpan(reply: string)
    requires ExtractJson(reply).Success?
    ensures var text, r := Strip(reply), ExtractJson(reply).value;
            var first, last := Find(text, '{'), RFind(text, '}');
            && 0 <= first < |text| && 0 <= last < |text|
            && (first < last ==>
                  && r == text[first..last + 1]
                  && |r| == last - first + 1
                  && r[0] == '{' && r[|r| - 1] == '}'
                  && (forall k :: 0 <= k < first ==> text[k] != '{')
                  && (forall k :: last < k < |text| ==> text[k] != '}'))
            && (last < first ==> r == "")
  {
    var text := Strip(reply);
    BraceSpanShape(text, Find(text, '{'), RFind(text, '}'));
  }

  /** `ExtractSpan` for the brace span of any text, with `first` and `last` its brace positions. */
  lemma BraceSpanShape(text: string, first: int, last: int)
    requires first == Find(text, '{') && last == RFind(text, '}')
    requires BraceSpan(text).Success?
    ensures 0 <= first < |text| && 0 <= last < |text|
    ensures first < last ==> BraceSpan(text).value == text[first..last + 1]
    ensures first < last ==> BraceSpan(text).value[0] == '{'
    ensures first < last ==> BraceSpan(text).value[last - first] == '}'
    ensures last < first ==> BraceSpan(text).value == ""
  {
    if first < last {
      var r := text[first..last + 1];
      assert r[0] == text[first] && r[last - first] == text[last];
    }
  }

  /**
   * A reply that wraps one object in text without braces (a Markdown fence,
   * a sentence, whitespace) yields exactly that object.
   */
  lemma ExtractWrappedObject(before: string, obj: string, after: string)
    requires '{' !in before && '}' !in before && '{' !in after && '}' !in after
    requires |obj| > 0 && obj[0] == '{' && obj[|obj| - 1] == '}'
    ensures ExtractJson(before + obj + after) == Success(obj)
  {
    var s := before + obj + after;
    var i, j := |before|, |before| + |obj| - 1;
    forall k | 0 <= k < i ensures s[k] != '{' {
      assert s[k] == before[k];
    }
    forall k | j < k < |s| ensures s[k] != '}' {
      assert s[k] == after[k - j - 1];
    }
    assert s[i..j + 1] == obj;
    ExtractBetween(s, i, j);
  }

  /** A `{` with none before it and a `}` after it with none after that delimit the extracted text. */
  lemma ExtractBetween(s: string, i: nat, j: nat)
    requires i <= j < |s| && s[i] == '{' && s[j] == '}'
    requires forall k :: 0 <= k < i ==> s[k] != '{'
    requires forall k :: j < k < |s| ==> s[k] != '}'
    ensures ExtractJson(s) == Success(s[i..j + 1])
  {
    StripSpansNonSpace(s, i, j);
    BraceSpanOfWindow(s, Strip(s), LeadingSpaces(s), i, j);
  }

  /** The braces at `i` and `j` of `s` delimit the brace span of any window `text` of `s` that contains both. */
  lemma BraceSpanOfWindow(s: string, text: string, lo: nat, i: nat, j: nat)
    requires lo + |text| <= |s| && text == s[lo..lo + |text|]
    requires lo <= i <= j < lo + |text| && s[i] == '{' && s[j] == '}'
    requires forall k :: 0 <= k < i ==> s[k] != '{'
    requires forall k :: j < k < |s| ==> s[k] != '}'
    ensures BraceSpan(text) == Success(s[i..j + 1])
  {
    BracesInSlice(s, text, lo, i, j);
    BraceSpanAt(text, i - lo, j - lo);
    SliceWithin(s, text, lo, i, j + 1);
  }

  /** A first `{` at `a` and a last `}` at `b >= a` delimit the brace span. */
  lemma BraceSpanAt(text: string, a: nat, b: nat)
    requires a <= b < |text|
    requires text[a] == '{' && forall k :: 0 <= k < a ==> text[k] != '{'
    requires text[b] == '}' && forall k :: b < k < |text| ==> text[k] != '}'
    ensures BraceSpan(text) == Success(text[a..b + 1])
  {
    FindAt(text, '{', a);
    RFindAt(text, '}', b);
  }

  /** The brace positions of `s` carry over to its slice `text` starting at `lo`. */
  lemma BracesInSlice(s: string, text: string, lo: nat, i: nat, j: nat)
    requires lo + |text| <= |s| && text == s[lo..lo + |text|]
    requires lo <= i <= j < lo + |text| && s[i] == '{' && s[j] == '}'
    requires forall k :: 0 <= k < i ==> s[k] != '{'
    requires forall k :: j < k < |s| ==> s[k] != '}'
    ensures text[i - lo] == '{' && forall m :: 0 <= m < i - lo ==> text[m] != '{'
    ensures text[j - lo] == '}' && forall m :: j - lo < m < |text| ==> text[m] != '}'
  {
    forall m | 0 <= m < |text| ensures text[m] == s[lo + m] {
    }
  }

  /** Slicing a slice `text` of `s` is slicing `s` at the shifted bounds. */
  lemma SliceWithin(s: string, text: string, lo: nat, a: nat, b: nat)
    requires lo + |text| <= |s| && text == s[lo..lo + |text|]
    requires lo <= a <= b <= lo + |text|
    ensures text[a - lo..b - lo] == s[a..b]
  {
    forall k | 0 <= k < b - a ensures text[a - lo..b - lo][k] == s[a..b][k] {
      assert text[a - lo..b - lo][k] == text[a - lo + k] == s[a + k];
    }
  }

  /**
   * A reply whose last `}` precedes its first `{` is cut to the empty text,
   * which `json.loads` refuses, so the request ends in 500.
   */
  lemma MisorderedBracesFail(data: Option<Body>, model: string -> Option<string>, loads: string -> bool, reply: string)
    requires ValidateRequest(data).Success? && model(ValidateRequest(data).value) == Some(reply)
    requires '{' in Strip(reply) && '}' in Strip(reply)
    requires RFind(Strip(reply), '}') < Find(Strip(reply), '{')
    requires !loads("")
    ensures Recommend(data, model, loads) == ServerError500(InvalidJson)
  {
  }
}
