/** The `/tts` route: validate `text` and `voice`, then run the cleanup, decode
    the text and ask the generator for a link to the audio. The cleanup, the
    decoder (`decodeURIComponent`) and the generator are library code outside
    this model and arrive as parameters. */
module Tts {
  import opened Http

  const RequiredMessage := "text and voice are required"
  const ArrayMessage := "text and voice should not be array"

  /** Where validation sends a request. */
  datatype TtsCheck =
    | TextVoiceRequired
    | TextVoiceArray
    | TtsProceed(text: string, voice: string)

  /** The two guards of the handler, in their order: presence first, then shape. */
  function CheckTtsParams(text: QueryValue, voice: QueryValue): (c: TtsCheck)
    ensures c.TtsProceed? <==>
              text.Scalar? && voice.Scalar? && text.value != "" && voice.value != ""
    ensures c.TtsProceed? ==> c.text == text.value && c.voice == voice.value
    ensures c == TextVoiceRequired <==> Falsy(text) || Falsy(voice)
    ensures c == TextVoiceArray ==> text.Many? || voice.Many?
  {
    if Falsy(text) || Falsy(voice) then
      TextVoiceRequired
    else if text.Many? || voice.Many? then
      TextVoiceArray
    else
      TtsProceed(text.value, voice.value)
  }

  /** The `/tts` handler. `clean` is how `cleanVoices()` ends, `decode` stands
      for `decodeURIComponent` and `generate` for `generateTTS`; a thrown error
      becomes status 500 with the error's message. */
  function TtsRoute(
    text: QueryValue,
    voice: QueryValue,
    clean: Outcome,
    decode: string -> Result<string>,
    generate: (string, string) -> Result<string>
  ): (h: Handled)
    ensures Falsy(text) || Falsy(voice) ==>
              h == Handled(Response(StatusServerError, ErrorBody(RequiredMessage)), [])
    ensures !Falsy(text) && !Falsy(voice) && (text.Many? || voice.Many?) ==>
              h == Handled(Response(StatusServerError, ErrorBody(ArrayMessage)), [])
    ensures h.calls != [] <==>
              text.Scalar? && voice.Scalar? && text.value != "" && voice.value != ""
    ensures h.calls != [] ==> h.calls[0] == CleanVoices
    ensures |h.calls| <= 2
    ensures |h.calls| == 2 ==>
              && clean.Pass?
              && decode(text.value).Ok?
              && h.calls[1] == GenerateTts(decode(text.value).value, voice.value)
    ensures CheckTtsParams(text, voice).TtsProceed? && clean.Pass? && decode(text.value).Ok? ==>
              h.calls == [CleanVoices, GenerateTts(decode(text.value).value, voice.value)]
    ensures h.response.status == StatusOk || h.response.status == StatusServerError
    ensures h.response.status == StatusOk <==>
              |h.calls| == 2 && generate(h.calls[1].text, h.calls[1].voice).Ok?
    ensures h.response.status == StatusOk ==>
              h.response.body == UrlBody(generate(h.calls[1].text, h.calls[1].voice).value)
    ensures h.response.status == StatusServerError ==> h.response.body.ErrorBody?
    ensures h.calls != [] && clean.Fail? ==>
              h.response == Response(StatusServerError, ErrorBody(clean.message))
    ensures h.calls != [] && clean.Pass? && decode(text.value).Err? ==>
              h.response == Response(StatusServerError, ErrorBody(decode(text.value).message))
    ensures |h.calls| == 2 && generate(h.calls[1].text, h.calls[1].voice).Err? ==>
              h.response == Response(StatusServerError, ErrorBody(generate(h.calls[1].text, h.calls[1].voice).message))
  {
    match CheckTtsParams(text, voice)
    case TextVoiceRequired =>
      Handled(Response(StatusServerError, ErrorBody(RequiredMessage)), [])
    case TextVoiceArray =>
      Handled(Response(StatusServerError, ErrorBody(ArrayMessage)), [])
    case TtsProceed(t, v) =>
      match clean
      case Fail(m) =>
        Handled(Response(StatusServerError, ErrorBody(m)), [CleanVoices])
      case Pass =>
        match decode(t)
        case Err(m) =>
          Handled(Response(StatusServerError, ErrorBody(m)), [CleanVoices])
        case Ok(d) =>
          var calls := [CleanVoices, GenerateTts(d, v)];
          match generate(d, v)
          case Err(m) => Handled(Response(StatusServerError, ErrorBody(m)), calls)
          case Ok(url) => Handled(Response(StatusOk, UrlBody(url)), calls)
  }
}
