/**
 * `generateCoverLetter` (src/lib/apis/ioNet.ts): the choice of tone and
 * language instructions and the handling of the endpoint's reply.
 */
module CoverLetter {
  import opened Wrappers
  import opened Text
  import opened Endpoint

  datatype Tone = Formal | Friendly
  datatype Language = English | French

  const FormalInstruction := "Use a professional, formal tone with proper business language."
  const FriendlyInstruction := "Use a friendly, approachable tone while maintaining professionalism."
  const FrenchInstruction := "Write the cover letter in French."
  /** The English instruction has no closing full stop, unlike the French one. */
  const EnglishInstruction := "Write the cover letter in English"

  /** Only `'formal'` selects the formal text; every other tone gets the friendly one. */
  function ToneInstruction(tone: Tone): (r: string)
    ensures r == FormalInstruction <==> tone == Formal
    ensures r == FriendlyInstruction <==> tone == Friendly
  {
    assert |FormalInstruction| != |FriendlyInstruction|;
    match tone
    case Formal => FormalInstruction
    case Friendly => FriendlyInstruction
  }

  /** Only `'french'` selects French; every other language gets English. */
  function LanguageInstruction(language: Language): (r: string)
    ensures r == FrenchInstruction <==> language == French
    ensures r == EnglishInstruction <==> language == English
  {
    assert FrenchInstruction[26] != EnglishInstruction[26];
    match language
    case French => FrenchInstruction
    case English => EnglishInstruction
  }

  /**
   * The reply handling: a transport failure as the endpoint reports it, a
   * `TypeError` when there is no first choice or its content is absent
   * (`undefined.trim()`), and otherwise the trimmed content.
   */
  function CoverLetterResult(response: Completion): (r: Result<string, Failure>)
    ensures (response.HttpError? || response.FetchFailed? || response.BodyNotJson?) ==>
              r == Failure(TransportFailure(response))
    ensures r.Success? <==> response.Reply? && response.content.Str?
    ensures response.Reply? && response.content.Str? ==> r == Success(Trim(response.content.text))
    ensures r.Failure? && (response.NoChoice? || response.Reply?) ==> r.error == TypeError
    ensures r.Success? ==> var t := r.value; t == [] || (!IsTrimmable(t[0]) && !IsTrimmable(t[|t| - 1]))
  {
    match response
    case Reply(Str(content)) => Success(Trim(content))
    case Reply(_) => Failure(TypeError)
    case NoChoice => Failure(TypeError)
    case _ => Failure(TransportFailure(response))
  }

  /** A reply that is already trimmed is returned as it is; trimming the letter again changes nothing. */
  lemma CoverLetterIsTrimmedReply(content: string)
    ensures var r := CoverLetterResult(Reply(Str(content)));
      && r.Success?
      && Trim(r.value) == r.value
      && (Trim(content) == content ==> r.value == content)
  {
    TrimIdempotent(content);
  }
}
