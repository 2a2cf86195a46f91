/** The `/clean` route: a shared-secret gate in front of `cleanVoices()`. The
    server's secret is the `CLEAN_SECRET` environment variable, unset or set. */
module Clean {
  import opened Http

  const RequiredMessage := "secret is required"
  const NotSetMessage := "clean_secret is not set"
  const InvalidMessage := "secret is invalid"
  const CleanedText := "Cleaned"
  const FailedMessage := "Clean failed"

  /** Where the gate sends a request. */
  datatype Gate = SecretRequired | SecretNotSet | SecretInvalid | Authorized

  /** A configured secret is neither unset nor the empty string. */
  predicate Configured(serverSecret: Option<string>)
  {
    serverSecret.Some? && serverSecret.value != ""
  }

  /** The three checks of the handler, in their order. A repeated `secret`
      arrives as an array, which is never strictly equal to a string. */
  function CheckSecret(secret: QueryValue, serverSecret: Option<string>): (g: Gate)
    ensures g == Authorized <==>
              Configured(serverSecret) && secret == Scalar(serverSecret.value)
    ensures g == SecretRequired <==> Falsy(secret)
    ensures g == SecretNotSet <==> !Falsy(secret) && !Configured(serverSecret)
  {
    if Falsy(secret) then
      SecretRequired
    else if !Configured(serverSecret) then
      SecretNotSet
    else if !(secret.Scalar? && secret.value == serverSecret.value) then
      SecretInvalid
    else
      Authorized
  }

  /** The `/clean` handler; `clean` is how `cleanVoices()` ends. */
  function CleanRoute(secret: QueryValue, serverSecret: Option<string>, clean: Outcome): (h: Handled)
    ensures Falsy(secret) ==>
              h == Handled(Response(StatusForbidden, ErrorBody(RequiredMessage)), [])
    ensures !Falsy(secret) && !Configured(serverSecret) ==>
              h == Handled(Response(StatusServerError, ErrorBody(NotSetMessage)), [])
    ensures !Falsy(secret) && Configured(serverSecret) && secret != Scalar(serverSecret.value) ==>
              h == Handled(Response(StatusForbidden, ErrorBody(InvalidMessage)), [])
    ensures h.calls == [] || h.calls == [CleanVoices]
    ensures h.calls == [CleanVoices] <==>
              Configured(serverSecret) && secret == Scalar(serverSecret.value)
    ensures h.calls == [CleanVoices] ==>
              h.response == if clean.Pass? then Response(StatusOk, TextBody(CleanedText))
                            else Response(StatusServerError, ErrorBody(FailedMessage))
  {
    match CheckSecret(secret, serverSecret)
    case SecretRequired =>
      Handled(Response(StatusForbidden, ErrorBody(RequiredMessage)), [])
    case SecretNotSet =>
      Handled(Response(StatusServerError, ErrorBody(NotSetMessage)), [])
    case SecretInvalid =>
      Handled(Response(StatusForbidden, ErrorBody(InvalidMessage)), [])
    case Authorized =>
      match clean
      case Pass => Handled(Response(StatusOk, TextBody(CleanedText)), [CleanVoices])
      case Fail(_) => Handled(Response(StatusServerError, ErrorBody(FailedMessage)), [CleanVoices])
  }
}
