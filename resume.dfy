/**
 * `parseResume` (src/lib/apis/ioNet.ts): configuration check, token-budget
 * admission with prefix truncation, one completion request, a keyword-based
 * fallback when the reply is not JSON, and field-by-field normalisation. The
 * resume record is the parsed JavaScript object, as its property map.
 */
module ResumeParsing {
  import opened Wrappers
  import opened Arith
  import opened Seqs
  import opened Json
  import opened Endpoint
  import opened Budget
  import opened Skills

  /** The two environment variables the stage reads; absent or empty means missing. */
  datatype Config = Config(apiKey: Option<string>, baseUrl: Option<string>)

  predicate Configured(c: Config) {
    c.apiKey.Some? && c.apiKey.value != "" && c.baseUrl.Some? && c.baseUrl.value != ""
  }

  /** The properties normalisation coerces to arrays. */
  const ListFields: seq<string> := ["skills", "workExperience", "education", "rolesOfInterest"]
  const SummaryField := "summary"
  /** The fallback summary keeps this many leading characters. */
  const SummaryPreviewChars := 200

  /** Every list property is an array and the summary is truthy or the empty string. */
  predicate WellFormedResume(r: JsObject) {
    && (forall k :: k in ListFields ==> IsArray(Get(r, k)))
    && SummaryField in r
    && (Truthy(Get(r, SummaryField)) || r[SummaryField] == JStr(""))
  }

  /**
   * `out` is `m` after lines 146-150: a list property that is not an array
   * becomes `[]`, a falsy summary becomes `""`, every other property is kept.
   */
  ghost predicate NormalizedFrom(out: JsObject, m: JsObject) {
    && (forall k :: k in ListFields ==>
          Get(out, k) == (if IsArray(Get(m, k)) then Get(m, k) else Some(JArr([]))))
    && Get(out, SummaryField) == (if Truthy(Get(m, SummaryField)) then Get(m, SummaryField) else Some(JStr("")))
    && (forall k :: k !in ListFields && k != SummaryField ==> Get(out, k) == Get(m, k))
  }

  /** A list property as normalisation leaves it: kept when it is an array, `[]` otherwise. */
  ghost function ListFix(v: Option<JsValue>): Option<JsValue> {
    if IsArray(v) then v else Some(JArr([]))
  }

  lemma MapsEqualByGet(a: JsObject, b: JsObject)
    requires forall k :: Get(a, k) == Get(b, k)
    ensures a == b
  {
    assert a.Keys == b.Keys by {
      forall k | k in a ensures k in b { assert Get(a, k).Some?; }
      forall k | k in b ensures k in a { assert Get(b, k).Some?; }
    }
    forall k | k in a ensures a[k] == b[k] { assert Get(a, k) == Get(b, k); }
  }

  /** Normalisation always yields a well-formed record. */
  lemma NormalizedIsWellFormed(out: JsObject, m: JsObject)
    requires NormalizedFrom(out, m)
    ensures WellFormedResume(out)
  {
    assert Get(out, SummaryField).Some?;
  }

  /** Normalisation is a function of its input. */
  lemma NormalizedIsUnique(out1: JsObject, out2: JsObject, m: JsObject)
    requires NormalizedFrom(out1, m) && NormalizedFrom(out2, m)
    ensures out1 == out2
  {
    forall k ensures Get(out1, k) == Get(out2, k) {
      if k in ListFields {
      } else if k == SummaryField {
      } else {
      }
    }
    MapsEqualByGet(out1, out2);
  }

  /** Normalising a record that is already well formed changes nothing. */
  lemma NormalizationIdempotent(out: JsObject, m: JsObject)
    requires WellFormedResume(m) && NormalizedFrom(out, m)
    ensures out == m
  {
    forall k ensures Get(out, k) == Get(m, k) {
      if k == SummaryField {
        if !Truthy(Get(m, SummaryField)) {
          assert m[SummaryField] == JStr("");
        }
      }
    }
    MapsEqualByGet(out, m);
  }

  function StringValues(ss: seq<string>): (r: seq<JsValue>)
    ensures |r| == |ss| && forall i :: 0 <= i < |ss| ==> r[i] == JStr(ss[i])
  {
    seq(|ss|, i requires 0 <= i < |ss| => JStr(ss[i]))
  }

  /**
   * The record built when the reply is not JSON: keyword-extracted skills
   * of the original text, empty lists, and its first 200 characters followed
   * by `"..."` as the summary.
   */
  function FallbackResume(resumeText: string): (r: JsObject)
    ensures WellFormedResume(r)
    ensures Get(r, "skills") == Some(JArr(StringValues(ExtractSkills(resumeText))))
    ensures forall k :: k in ListFields[1..] ==> Get(r, k) == Some(JArr([]))
    ensures Get(r, SummaryField) == Some(JStr(Take(resumeText, SummaryPreviewChars) + "..."))
  {
    map[
      "skills" := JArr(StringValues(ExtractSkills(resumeText))),
      "workExperience" := JArr([]),
      "education" := JArr([]),
      "rolesOfInterest" := JArr([]),
      SummaryField := JStr(Take(resumeText, SummaryPreviewChars) + "...")
    ]
  }

  /** The value of `parsedData` after the inner `try`: the parse result, or the fallback record when parsing throws. */
  function ParsedOrFallback(content: Content, parseJson: string -> Option<JsValue>, resumeText: string): (r: JsValue)
    ensures parseJson(ParseInput(content)).Some? ==> r == parseJson(ParseInput(content)).value
    ensures parseJson(ParseInput(content)).None? ==> r == JObj(FallbackResume(resumeText))
    ensures content.Absent? ==> r == parseJson("undefined").GetOr(JObj(FallbackResume(resumeText)))
    ensures content.Null? ==> r == parseJson("null").GetOr(JObj(FallbackResume(resumeText)))
  {
    match parseJson(ParseInput(content))
    case Some(v) => v
    case None => JObj(FallbackResume(resumeText))
  }

  /**
   * The own properties normalisation reads and writes. A parsed array has
   * none of the five properties; its elements are not modelled.
   */
  function OwnProperties(v: JsValue): JsObject
    requires v.JObj? || v.JArr?
  {
    if v.JObj? then v.fields else map[]
  }

  /**
   * Lines 146-150 on the parsed record's own properties: each list property
   * that is not an array is replaced by `[]`, a falsy summary by `""`.
   */
  method Normalize(m: JsObject) returns (fields: JsObject)
    ensures NormalizedFrom(fields, m)
    ensures WellFormedResume(fields)
  {
    fields := m;
    if !IsArray(Get(fields, "skills")) {
      fields := fields["skills" := JArr([])];
    }
    ghost var f1 := fields;
    assert Get(f1, "skills") == ListFix(Get(m, "skills"));
    assert forall k :: k != "skills" ==> Get(f1, k) == Get(m, k);
    if !IsArray(Get(fields, "workExperience")) {
      fields := fields["workExperience" := JArr([])];
    }
    ghost var f2 := fields;
    assert Get(f2, "workExperience") == ListFix(Get(m, "workExperience"));
    assert forall k :: k != "workExperience" ==> Get(f2, k) == Get(f1, k);
    if !IsArray(Get(fields, "education")) {
      fields := fields["education" := JArr([])];
    }
    ghost var f3 := fields;
    assert Get(f3, "education") == ListFix(Get(m, "education"));
    assert forall k :: k != "education" ==> Get(f3, k) == Get(f2, k);
    if !IsArray(Get(fields, "rolesOfInterest")) {
      fields := fields["rolesOfInterest" := JArr([])];
    }
    ghost var f4 := fields;
    assert Get(f4, "rolesOfInterest") == ListFix(Get(m, "rolesOfInterest"));
    assert forall k :: k != "rolesOfInterest" ==> Get(f4, k) == Get(f3, k);
    if !Truthy(Get(fields, SummaryField)) {
      fields := fields[SummaryField := JStr("")];
    }
    assert forall k :: k != SummaryField ==> Get(fields, k) == Get(f4, k);
    NormalizedInSteps(m, f1, f2, f3, f4, fields);
    NormalizedIsWellFormed(fields, m);
  }

  /** The five updates of `Normalize`, one property each, add up to a normalised record. */
  lemma NormalizedInSteps(m: JsObject, f1: JsObject, f2: JsObject, f3: JsObject, f4: JsObject, out: JsObject)
    requires Get(f1, "skills") == ListFix(Get(m, "skills")) && forall k :: k != "skills" ==> Get(f1, k) == Get(m, k)
    requires Get(f2, "workExperience") == ListFix(Get(m, "workExperience"))
    requires forall k :: k != "workExperience" ==> Get(f2, k) == Get(f1, k)
    requires Get(f3, "education") == ListFix(Get(m, "education")) && forall k :: k != "education" ==> Get(f3, k) == Get(f2, k)
    requires Get(f4, "rolesOfInterest") == ListFix(Get(m, "rolesOfInterest"))
    requires forall k :: k != "rolesOfInterest" ==> Get(f4, k) == Get(f3, k)
    requires Get(out, SummaryField) == (if Truthy(Get(f4, SummaryField)) then Get(f4, SummaryField) else Some(JStr("")))
    requires forall k :: k != SummaryField ==> Get(out, k) == Get(f4, k)
    ensures NormalizedFrom(out, m)
  {
    forall k | k in ListFields ensures Get(out, k) == ListFix(Get(m, k)) {
      if k == "skills" {
        assert Get(out, k) == Get(f4, k) == Get(f3, k) == Get(f2, k) == Get(f1, k);
      } else if k == "workExperience" {
        assert Get(out, k) == Get(f4, k) == Get(f3, k) == Get(f2, k);
      } else if k == "education" {
        assert Get(out, k) == Get(f4, k) == Get(f3, k);
      } else {
        assert Get(out, k) == Get(f4, k);
      }
    }
    assert Get(f4, SummaryField) == Get(m, SummaryField);
  }

  /**
   * The resume stage with the endpoint's outcome and `JSON.parse` as inputs.
   * `sent` is the user content of the one request issued, `None` when the
   * stage throws before fetching.
   */
  method ParseResume(resumeText: string, config: Config, response: Completion, parseJson: string -> Option<JsValue>)
    returns (sent: Option<string>, r: Result<JsObject, Failure>)
    ensures sent.Some? <==> Configured(config) && Fits(|resumeText|)
    ensures sent.Some? ==> sent.value == resumeText
    ensures !Configured(config) ==> r == Failure(ConfigMissing)
    ensures Configured(config) && !Fits(|resumeText|) ==>
              r == Failure(TokenBudgetExceeded(SystemTokens + Tokens(TruncatedLength(|resumeText|)) + MaxCompletionTokens))
    ensures sent.Some? && response.NoChoice? ==> r == Failure(TypeError)
    ensures sent.Some? && (response.HttpError? || response.FetchFailed? || response.BodyNotJson?) ==>
              r == Failure(TransportFailure(response))
    ensures sent.Some? && response.Reply? ==>
              var parsed := ParsedOrFallback(response.content, parseJson, resumeText);
              && (r.Success? <==> parsed.JObj? || parsed.JArr?)
              && (r.Failure? ==> r.error == TypeError)
              && (r.Success? ==> NormalizedFrom(r.value, OwnProperties(parsed)))
    ensures sent.Some? && response == Reply(Null) && parseJson("null") == Some(JNull) ==> r == Failure(TypeError)
    ensures r.Success? ==> sent.Some? && WellFormedResume(r.value)
  {
    if !Configured(config) {
      return None, Failure(ConfigMissing);
    }

    var userContent := resumeText;
    var userTokens := EstimateTokens(userContent);
    if userTokens > MaxUserTokens {
      userContent := resumeText[..Min(MaxChars, |resumeText|)];
      userTokens := EstimateTokens(userContent);
    }
    assert |userContent| == TruncatedLength(|resumeText|);

    var totalTokens := SystemTokens + userTokens + MaxCompletionTokens;
    AdmissionKeepsWholeText(|resumeText|);
    if totalTokens > MaxContextTokens {
      return None, Failure(TokenBudgetExceeded(totalTokens));
    }
    assert userContent == resumeText;
    sent := Some(userContent);

    match response {
      case HttpError(_) =>
        return sent, Failure(TransportFailure(response));
      case FetchFailed =>
        return sent, Failure(TransportFailure(response));
      case BodyNotJson =>
        return sent, Failure(TransportFailure(response));
      case NoChoice =>
        // reading `data.choices[0].message.content` throws, and so does the catch block's second read
        return sent, Failure(TypeError);
      case Reply(content) =>
        var parsedData := ParsedOrFallback(content, parseJson, resumeText);
        if !(parsedData.JObj? || parsedData.JArr?) {
          // `null` cannot be read, and a primitive cannot take new properties
          return sent, Failure(TypeError);
        }
        var fields := Normalize(OwnProperties(parsedData));
        return sent, Success(fields);
    }
  }

  /** When the reply does not parse, the stage returns the fallback record unchanged by normalisation. */
  lemma FallbackSurvivesNormalization(resumeText: string, out: JsObject)
    requires NormalizedFrom(out, FallbackResume(resumeText))
    ensures out == FallbackResume(resumeText)
  {
    NormalizationIdempotent(out, FallbackResume(resumeText));
  }

  /** A parsed object without an `education` property comes back with `education = []`. */
  lemma MissingFieldBecomesEmptyList(out: JsObject, m: JsObject, k: string)
    requires NormalizedFrom(out, m) && k in ListFields && k !in m
    ensures Get(out, k) == Some(JArr([]))
  {
  }
}
