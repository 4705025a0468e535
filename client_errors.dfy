/** The bundle's classification of the DOMExceptions thrown by
    navigator.credentials.create (`C`) and navigator.credentials.get (`N`)
    into WebAuthnError values with a machine-readable code, and the
    attachment filter `_` applied to a new credential's
    authenticatorAttachment. Each classifier looks only at the exception's
    name, the options that were passed, whether those options carried an
    AbortSignal, and window.location.hostname, which is a parameter here. */
module CeremonyErrors {
  import opened Outcomes
  import opened HostName

  /** A DOMException as thrown by the browser: its name and message. */
  datatype DomException = DomException(name: string, message: string)

  datatype CredParam = CredParam(credType: string, alg: int)

  datatype AuthenticatorSelection = AuthenticatorSelection(
    requireResidentKey: Option<bool>,
    userVerification: Option<string>)

  datatype RpEntity = RpEntity(id: Option<string>)

  /** The parts of PublicKeyCredentialCreationOptions that C reads. The
      user id is the TextEncoder encoding of the login, so only its length
      in bytes matters. */
  datatype CreationPublicKey = CreationPublicKey(
    rp: RpEntity,
    userIdByteLength: nat,
    pubKeyCredParams: seq<CredParam>,
    authenticatorSelection: Option<AuthenticatorSelection>)

  /** The argument of navigator.credentials.create: the publicKey member,
      absent when undefined, and whether a signal was attached. */
  datatype CreationRequest = CreationRequest(publicKey: Option<CreationPublicKey>, hasAbortSignal: bool)

  /** The parts of PublicKeyCredentialRequestOptions that N reads. */
  datatype RequestPublicKey = RequestPublicKey(rpId: Option<string>)

  datatype GetRequest = GetRequest(publicKey: Option<RequestPublicKey>, hasAbortSignal: bool)

  /** The codes a WebAuthnError carries; each stands for the string
      "ERROR_" followed by its name in upper snake case (with
      "AUTHENTICATOR_" after "ERROR_" for the four authenticator codes). */
  datatype ErrorCode =
    | CeremonyAborted                       // ERROR_CEREMONY_ABORTED
    | MissingDiscoverableCredentialSupport  // ERROR_AUTHENTICATOR_MISSING_DISCOVERABLE_CREDENTIAL_SUPPORT
    | MissingUserVerificationSupport        // ERROR_AUTHENTICATOR_MISSING_USER_VERIFICATION_SUPPORT
    | PreviouslyRegistered                  // ERROR_AUTHENTICATOR_PREVIOUSLY_REGISTERED
    | PassthroughSeeCauseProperty           // ERROR_PASSTHROUGH_SEE_CAUSE_PROPERTY
    | MalformedPubKeyCredParams             // ERROR_MALFORMED_PUBKEYCREDPARAMS
    | NoSupportedPubKeyCredParamsAlg        // ERROR_AUTHENTICATOR_NO_SUPPORTED_PUBKEYCREDPARAMS_ALG
    | InvalidDomain                         // ERROR_INVALID_DOMAIN
    | InvalidRpId                           // ERROR_INVALID_RP_ID
    | InvalidUserIdLength                   // ERROR_INVALID_USER_ID_LENGTH
    | GeneralError                          // ERROR_AUTHENTICATOR_GENERAL_ERROR

  /** The bundle's error class: its name is the name of the cause. */
  datatype WebAuthnError = WebAuthnError(message: string, code: ErrorCode, name: string, cause: DomException)

  /** What the classifier returns: the original exception, or a wrapped one. */
  datatype Classified = Original(error: DomException) | Wrapped(wrapped: WebAuthnError)

  const MissingPublicKey := "options was missing required publicKey property"

  // The messages of the wrapped errors.
  const RegistrationAborted := "Registration ceremony was sent an abort signal"
  const AuthenticationAborted := "Authentication ceremony was sent an abort signal"
  const NoDiscoverableSupport := "Discoverable credentials were required but no available authenticator supported it"
  const NoUserVerificationSupport := "User verification was required but no available authenticator supported it"
  const AlreadyRegistered := "The authenticator was previously registered"
  const NoPublicKeyParam := "No entry in pubKeyCredParams was of type \"public-key\""
  const NoSupportedAlg := "No available authenticator supported any of the specified pubKeyCredParams algorithms"
  const BadUserIdLength := "User ID was not between 1 and 64 characters"
  const CreationFailed := "The authenticator was unable to process the specified options, or could not create a new credential"
  const AssertionFailed := "The authenticator was unable to process the specified options, or could not create a new assertion signature"

  function Wrap(message: string, code: ErrorCode, cause: DomException): (w: Classified)
    ensures w.Wrapped? && w.wrapped.code == code && w.wrapped.cause == cause
    ensures w.wrapped.name == cause.name
  {
    Wrapped(WebAuthnError(message, code, cause.name, cause))
  }

  /** JavaScript's rendering of an optional string in a template literal. */
  function Shown(s: Option<string>): string
  {
    match s
    case None => "undefined"
    case Some(v) => v
  }

  /** The SecurityError rule both classifiers share: an invalid current host
      name is reported as an invalid domain; a valid one that differs from
      the relying-party id as an invalid RP id; otherwise the original
      exception is returned. */
  function SecurityErrorRule(e: DomException, rpId: Option<string>, hostname: string): (r: Classified)
    ensures !IsValidDomain(hostname) ==> r.Wrapped? && r.wrapped.code == InvalidDomain
    ensures IsValidDomain(hostname) && rpId != Some(hostname) ==> r.Wrapped? && r.wrapped.code == InvalidRpId
    ensures IsValidDomain(hostname) && rpId == Some(hostname) ==> r == Original(e)
  {
    if IsValidDomain(hostname) then
      if rpId != Some(hostname) then
        Wrap("The RP ID \"" + Shown(rpId) + "\" is invalid for this domain", InvalidRpId, e)
      else Original(e)
    else Wrap(hostname + " is an invalid domain", InvalidDomain, e)
  }

  function HasPublicKeyParam(params: seq<CredParam>): bool
  {
    exists i :: 0 <= i < |params| && params[i].credType == "public-key"
  }

  /** C: classify an exception of navigator.credentials.create. */
  function ClassifyRegistrationError(e: DomException, options: CreationRequest, hostname: string): (r: Result<Classified, string>)
    ensures r.Err? <==> options.publicKey.None?
    ensures r.Err? ==> r.error == MissingPublicKey
    ensures r.Ok? && r.value.Wrapped? ==> r.value.wrapped.cause == e && r.value.wrapped.name == e.name
  {
    match options.publicKey
    case None => Err(MissingPublicKey)
    case Some(pk) =>
      var sel := pk.authenticatorSelection;
      Ok(
        if e.name == "AbortError" then
          if options.hasAbortSignal then Wrap(RegistrationAborted, CeremonyAborted, e)
          else Original(e)
        else if e.name == "ConstraintError" then
          if sel.Some? && sel.value.requireResidentKey == Some(true) then
            Wrap(NoDiscoverableSupport, MissingDiscoverableCredentialSupport, e)
          else if sel.Some? && sel.value.userVerification == Some("required") then
            Wrap(NoUserVerificationSupport, MissingUserVerificationSupport, e)
          else Original(e)
        else if e.name == "InvalidStateError" then
          Wrap(AlreadyRegistered, PreviouslyRegistered, e)
        else if e.name == "NotAllowedError" then
          Wrap(e.message, PassthroughSeeCauseProperty, e)
        else if e.name == "NotSupportedError" then
          if !HasPublicKeyParam(pk.pubKeyCredParams) then
            Wrap(NoPublicKeyParam, MalformedPubKeyCredParams, e)
          else
            Wrap(NoSupportedAlg, NoSupportedPubKeyCredParamsAlg, e)
        else if e.name == "SecurityError" then
          SecurityErrorRule(e, pk.rp.id, hostname)
        else if e.name == "TypeError" then
          if pk.userIdByteLength < 1 || pk.userIdByteLength > 64 then
            Wrap(BadUserIdLength, InvalidUserIdLength, e)
          else Original(e)
        else if e.name == "UnknownError" then
          Wrap(CreationFailed, GeneralError, e)
        else Original(e))
  }

  /** N: classify an exception of navigator.credentials.get. */
  function ClassifyAuthenticationError(e: DomException, options: GetRequest, hostname: string): (r: Result<Classified, string>)
    ensures r.Err? <==> options.publicKey.None?
    ensures r.Err? ==> r.error == MissingPublicKey
    ensures r.Ok? && r.value.Wrapped? ==> r.value.wrapped.cause == e && r.value.wrapped.name == e.name
  {
    match options.publicKey
    case None => Err(MissingPublicKey)
    case Some(pk) =>
      Ok(
        if e.name == "AbortError" then
          if options.hasAbortSignal then Wrap(AuthenticationAborted, CeremonyAborted, e)
          else Original(e)
        else if e.name == "NotAllowedError" then
          Wrap(e.message, PassthroughSeeCauseProperty, e)
        else if e.name == "SecurityError" then
          SecurityErrorRule(e, pk.rpId, hostname)
        else if e.name == "UnknownError" then
          Wrap(AssertionFailed, GeneralError, e)
        else Original(e))
  }

  /** The code of a classification, if it wrapped the exception. */
  function CodeOf(r: Result<Classified, string>): Option<ErrorCode>
  {
    if r.Ok? && r.value.Wrapped? then Some(r.value.wrapped.code) else None
  }

  const Attachments: seq<string> := ["cross-platform", "platform"]

  /** _: keep an authenticatorAttachment value only when it is one of the
      two the WebAuthn specification defines. */
  function FilterAttachment(x: Option<string>): (r: Option<string>)
    ensures r.Some? <==> x.Some? && x.value in Attachments
    ensures r.Some? ==> r == x
  {
    if x.Some? && x.value != "" && x.value in Attachments then x else None
  }

  // ---------------------------------------------------------------------
  // Properties of C

  /** A ConstraintError is reported as missing discoverable-credential
      support exactly when a resident key was required, which takes
      precedence over a required user verification. */
  lemma DiscoverableIff(e: DomException, options: CreationRequest, hostname: string)
    requires options.publicKey.Some?
    ensures CodeOf(ClassifyRegistrationError(e, options, hostname)) == Some(MissingDiscoverableCredentialSupport)
            <==> e.name == "ConstraintError" &&
                 options.publicKey.value.authenticatorSelection.Some? &&
                 options.publicKey.value.authenticatorSelection.value.requireResidentKey == Some(true)
  {
  }

  /** Missing user-verification support is reported exactly for a
      ConstraintError when user verification was required and a resident
      key was not. */
  lemma UserVerificationIff(e: DomException, options: CreationRequest, hostname: string)
    requires options.publicKey.Some?
    ensures var sel := options.publicKey.value.authenticatorSelection;
            CodeOf(ClassifyRegistrationError(e, options, hostname)) == Some(MissingUserVerificationSupport)
            <==> e.name == "ConstraintError" && sel.Some? &&
                 sel.value.requireResidentKey != Some(true) && sel.value.userVerification == Some("required")
  {
  }

  /** A TypeError is reported as an invalid user id length exactly when the
      user id is shorter than 1 or longer than 64 bytes. */
  lemma UserIdLengthIff(e: DomException, options: CreationRequest, hostname: string)
    requires options.publicKey.Some?
    ensures var n := options.publicKey.value.userIdByteLength;
            CodeOf(ClassifyRegistrationError(e, options, hostname)) == Some(InvalidUserIdLength)
            <==> e.name == "TypeError" && (n < 1 || n > 64)
  {
  }

  /** A NotSupportedError is reported as malformed parameters exactly when
      no parameter has type "public-key", and as no supported algorithm
      otherwise. */
  lemma NotSupportedSplit(e: DomException, options: CreationRequest, hostname: string)
    requires options.publicKey.Some? && e.name == "NotSupportedError"
    ensures var params := options.publicKey.value.pubKeyCredParams;
            var code := CodeOf(ClassifyRegistrationError(e, options, hostname));
            (code == Some(MalformedPubKeyCredParams) <==> forall i :: 0 <= i < |params| ==> params[i].credType != "public-key") &&
            (code == Some(NoSupportedPubKeyCredParamsAlg) <==> exists i :: 0 <= i < |params| && params[i].credType == "public-key")
  {
  }

  /** The SecurityError rule of C, in terms of the host check A. */
  lemma RegistrationSecurityError(e: DomException, options: CreationRequest, hostname: string)
    requires options.publicKey.Some? && e.name == "SecurityError"
    ensures var r := ClassifyRegistrationError(e, options, hostname);
            var rpId := options.publicKey.value.rp.id;
            (CodeOf(r) == Some(InvalidDomain) <==> !HostShape(hostname)) &&
            (CodeOf(r) == Some(InvalidRpId) <==> HostShape(hostname) && rpId != Some(hostname)) &&
            (r == Ok(Original(e)) <==> HostShape(hostname) && rpId == Some(hostname))
  {
    HostIff(hostname);
  }

  /** An abort is reported as a ceremony abort exactly when the options
      carried a signal. */
  lemma RegistrationAbortIff(e: DomException, options: CreationRequest, hostname: string)
    requires options.publicKey.Some?
    ensures CodeOf(ClassifyRegistrationError(e, options, hostname)) == Some(CeremonyAborted)
            <==> e.name == "AbortError" && options.hasAbortSignal
  {
  }

  /** Only these exception names can be wrapped by C; any other exception
      comes back unchanged. */
  lemma RegistrationUnmatched(e: DomException, options: CreationRequest, hostname: string)
    requires options.publicKey.Some?
    requires e.name !in ["AbortError", "ConstraintError", "InvalidStateError", "NotAllowedError",
                         "NotSupportedError", "SecurityError", "TypeError", "UnknownError"]
    ensures ClassifyRegistrationError(e, options, hostname) == Ok(Original(e))
  {
  }

  /** InvalidStateError, NotAllowedError and UnknownError are always wrapped,
      and a NotAllowedError keeps the browser's message. */
  lemma RegistrationAlwaysWrapped(e: DomException, options: CreationRequest, hostname: string)
    requires options.publicKey.Some?
    ensures var code := CodeOf(ClassifyRegistrationError(e, options, hostname));
            (code == Some(PreviouslyRegistered) <==> e.name == "InvalidStateError") &&
            (code == Some(PassthroughSeeCauseProperty) <==> e.name == "NotAllowedError") &&
            (code == Some(GeneralError) <==> e.name == "UnknownError")
    ensures e.name == "NotAllowedError" ==>
            ClassifyRegistrationError(e, options, hostname).value.wrapped.message == e.message
  {
  }

  // ---------------------------------------------------------------------
  // Properties of N

  /** The SecurityError rule of N, in terms of the host check A. */
  lemma AuthenticationSecurityError(e: DomException, options: GetRequest, hostname: string)
    requires options.publicKey.Some? && e.name == "SecurityError"
    ensures var r := ClassifyAuthenticationError(e, options, hostname);
            var rpId := options.publicKey.value.rpId;
            (CodeOf(r) == Some(InvalidDomain) <==> !HostShape(hostname)) &&
            (CodeOf(r) == Some(InvalidRpId) <==> HostShape(hostname) && rpId != Some(hostname)) &&
            (r == Ok(Original(e)) <==> HostShape(hostname) && rpId == Some(hostname))
  {
    HostIff(hostname);
  }

  /** N wraps exactly aborts with a signal, NotAllowedError, UnknownError and
      the SecurityErrors the shared rule reports; it never produces the
      registration-only codes. */
  lemma AuthenticationCodes(e: DomException, options: GetRequest, hostname: string)
    requires options.publicKey.Some?
    ensures var code := CodeOf(ClassifyAuthenticationError(e, options, hostname));
            (code == Some(CeremonyAborted) <==> e.name == "AbortError" && options.hasAbortSignal) &&
            (code == Some(PassthroughSeeCauseProperty) <==> e.name == "NotAllowedError") &&
            (code == Some(GeneralError) <==> e.name == "UnknownError") &&
            (code.Some? ==> code.value in {CeremonyAborted, PassthroughSeeCauseProperty, InvalidDomain, InvalidRpId, GeneralError})
  {
  }

  /** Any exception other than the four N handles comes back unchanged. */
  lemma AuthenticationUnmatched(e: DomException, options: GetRequest, hostname: string)
    requires options.publicKey.Some?
    requires e.name !in ["AbortError", "NotAllowedError", "SecurityError", "UnknownError"]
    ensures ClassifyAuthenticationError(e, options, hostname) == Ok(Original(e))
  {
  }
}
