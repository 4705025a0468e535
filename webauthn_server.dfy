/** Webauthn_Server: the option builder for registration and sign-in and
    the per-user registration challenge kept in the usermeta table under
    "wp_passkey_challenge". The webauthn library's loader and its two
    response checks are oracles held by the server; the site's name and
    host are constants of it. */
module WebauthnServer {
  import opened Outcomes
  import opened Base64
  import opened Credentials
  import opened UserMeta
  import opened SourceRepository
  import CeremonyErrors
  import HostName

  // ---------------------------------------------------------------------
  // Algorithms

  /** The signature algorithms the plugin offers and accepts. */
  datatype CoseAlgorithm =
    ES256 | ES256K | ES384 | ES512 | RS256 | RS384 | RS512 | PS256 | PS384 | PS512 | ED256 | ED512

  /** The COSE identifier of each algorithm: the IANA COSE Algorithms
      registry values (RFC 9053; ES256K from RFC 8812), and for Ed256 and
      Ed512 the identifiers the COSE library assigns. */
  function Identifier(a: CoseAlgorithm): (id: int)
    ensures id < 0
  {
    match a
    case ES256 => -7
    case ES256K => -47
    case ES384 => -35
    case ES512 => -36
    case RS256 => -257
    case RS384 => -258
    case RS512 => -259
    case PS256 => -37
    case PS384 => -38
    case PS512 => -39
    case ED256 => -260
    case ED512 => -261
  }

  datatype CredentialParameters = CredentialParameters(credType: string, alg: int)

  /** get_public_key_credential_parameters_list. */
  function ParametersList(): (r: seq<CredentialParameters>)
    ensures |r| == 12
  {
    [ CredentialParameters("public-key", Identifier(ES256)),
      CredentialParameters("public-key", Identifier(ES256K)),
      CredentialParameters("public-key", Identifier(ES384)),
      CredentialParameters("public-key", Identifier(ES512)),
      CredentialParameters("public-key", Identifier(RS256)),
      CredentialParameters("public-key", Identifier(RS384)),
      CredentialParameters("public-key", Identifier(RS512)),
      CredentialParameters("public-key", Identifier(PS256)),
      CredentialParameters("public-key", Identifier(PS384)),
      CredentialParameters("public-key", Identifier(PS512)),
      CredentialParameters("public-key", Identifier(ED256)),
      CredentialParameters("public-key", Identifier(ED512)) ]
  }

  /** get_algorithm_manager: the algorithms registered for sign-in, in order. */
  function AlgorithmManager(): (r: seq<CoseAlgorithm>)
    ensures |r| == 12
  {
    [ES256, ES256K, ES384, ES512, RS256, RS384, RS512, PS256, PS384, PS512, ED256, ED512]
  }

  // ---------------------------------------------------------------------
  // Option builders

  /** AuthenticatorSelectionCriteria. Setting the resident-key requirement
      also sets the legacy requireResidentKey flag, true exactly for
      "required". */
  datatype AuthenticatorSelection = AuthenticatorSelection(
    authenticatorAttachment: Option<string>,
    residentKey: Option<string>,
    requireResidentKey: bool,
    userVerification: string)

  const ResidentKeyRequired := "required"
  const AttachmentPlatform := "platform"

  /** get_authenticator_selection: created with the library defaults, then
      given a required resident key and platform attachment. */
  function GetAuthenticatorSelection(): (r: AuthenticatorSelection)
    ensures r.residentKey == Some(ResidentKeyRequired) && r.requireResidentKey
    ensures r.authenticatorAttachment == Some(AttachmentPlatform)
    ensures r.userVerification == "preferred"
  {
    var created := AuthenticatorSelection(None, None, false, "preferred");
    var withResidentKey := created.(residentKey := Some(ResidentKeyRequired),
                                    requireResidentKey := ResidentKeyRequired == "required");
    withResidentKey.(authenticatorAttachment := Some(AttachmentPlatform))
  }

  datatype UserEntity = UserEntity(name: string, id: string, displayName: string)

  /** create_public_key_credential_user_entity. */
  function CreateUserEntity(user: WpUser): (r: UserEntity)
    ensures r.name == user.login && r.id == user.login && r.displayName == user.displayName
  {
    UserEntity(user.login, user.login, user.displayName)
  }

  datatype RpEntity = RpEntity(name: string, id: string)

  datatype CreationOptions = CreationOptions(
    rp: RpEntity,
    user: UserEntity,
    challenge: string,
    pubKeyCredParams: seq<CredentialParameters>,
    timeout: int,
    authenticatorSelection: AuthenticatorSelection,
    attestation: string)

  datatype RequestOptions = RequestOptions(challenge: string, rpId: Option<string>)

  const TimeoutMs := 30000
  const AttestationNone := "none"
  const HardCodedChallenge := "ivan1234"

  /** PHP truthiness of a nullable string: null, '' and '0' are false. */
  predicate Truthy(s: Option<string>)
  {
    s.Some? && s.value != "" && s.value != "0"
  }

  predicate IsLowerHex(c: char)
  {
    '0' <= c <= '9' || 'a' <= c <= 'f'
  }

  /** The shape of wp_generate_uuid4's output: 8-4-4-4-12 lower-case hex
      digits, version nibble 4, variant nibble 8, 9, a or b. */
  predicate IsUuid4(s: string)
  {
    |s| == 36 &&
    (forall i :: 0 <= i < |s| ==>
       if i == 8 || i == 13 || i == 18 || i == 23 then s[i] == '-' else IsLowerHex(s[i])) &&
    s[14] == '4' && (s[19] == '8' || s[19] == '9' || s[19] == 'a' || s[19] == 'b')
  }

  const SampleUuid4 := "00000000-0000-4000-8000-000000000000"

  lemma SampleIsUuid4()
    ensures IsUuid4(SampleUuid4)
  {
  }

  /** A UUID has no backslash, so update_user_meta stores it unchanged. */
  lemma Uuid4StoredVerbatim(s: string)
    requires IsUuid4(s)
    ensures StripSlashes(s) == s
  {
    StripSlashesWithout(s);
  }

  /** create_assertion_request: keep a truthy challenge, else use the fixed
      one; no relying-party id is set. */
  function CreateAssertionRequest(challenge: Option<string>): (r: RequestOptions)
    ensures Truthy(challenge) ==> r.challenge == challenge.value
    ensures !Truthy(challenge) ==> r.challenge == HardCodedChallenge
    ensures r.rpId == None
  {
    RequestOptions(if Truthy(challenge) then challenge.value else HardCodedChallenge, None)
  }

  // ---------------------------------------------------------------------
  // The library's oracles

  datatype AuthenticatorResponse =
    | AttestationResponse(attestationData: string)
    | AssertionResponse(assertionData: string)

  datatype PublicKeyCredential = PublicKeyCredential(rawId: seq<uint8>, response: AuthenticatorResponse)

  /** PublicKeyCredentialLoader::load, the exception (if any) with which
      PublicKeyCredentialUserEntity::create refuses a user entity, and the
      two validators' check, with the current domain as the last argument. */
  datatype Library = Library(
    load: string -> Result<PublicKeyCredential, Failure>,
    userEntityError: UserEntity -> Option<Failure>,
    checkAttestation: (AuthenticatorResponse, CreationOptions, string) -> Result<Source, Failure>,
    checkAssertion: (seq<uint8>, AuthenticatorResponse, RequestOptions, string) -> Result<Source, Failure>)

  const InvalidRequest := "Invalid request."

  /** The result of validate_attestation_response, the table it leaves, and
      the options handed to the attestation check, if it was reached. */
  datatype AttestationRun = AttestationRun(result: Result<Source, Failure>, rows: Rows, checked: Option<CreationOptions>)

  class Server {
    const meta: UserMetaTable
    /** get_bloginfo( 'name' ). */
    const blogName: string
    /** get_current_domain(): the host of the site URL. */
    const domain: string
    const lib: Library

    constructor(meta: UserMetaTable, blogName: string, domain: string, lib: Library)
      ensures this.meta == meta && this.blogName == blogName && this.domain == domain && this.lib == lib
    {
      this.meta := meta;
      this.blogName := blogName;
      this.domain := domain;
      this.lib := lib;
    }

    /** get_relying_party. */
    function RelyingParty(): (r: RpEntity)
      ensures r.name == blogName && r.id == domain
    {
      RpEntity(blogName, domain)
    }

    /** The creation options create_attestation_request builds around a
        challenge. */
    function CreationOptionsFor(user: WpUser, challenge: string): (r: CreationOptions)
      ensures r.challenge == challenge && r.rp == RelyingParty() && r.user == CreateUserEntity(user)
      ensures r.pubKeyCredParams == ParametersList()
      ensures r.timeout == TimeoutMs && r.attestation == AttestationNone
      ensures r.authenticatorSelection == GetAuthenticatorSelection()
    {
      CreationOptions(RelyingParty(), CreateUserEntity(user), challenge, ParametersList(),
                      TimeoutMs, GetAuthenticatorSelection(), AttestationNone)
    }

    /** create_attestation_request: build the user entity, which the
        library may refuse with an exception before anything is stored;
        keep a truthy challenge, otherwise generate a UUIDv4; build the
        options and store the challenge in the user's meta (update_user_meta
        unslashes it). */
    method CreateAttestationRequest(user: WpUser, challenge: Option<string>) returns (r: Result<CreationOptions, Failure>)
      modifies meta
      ensures lib.userEntityError(CreateUserEntity(user)).Some? ==>
                r == Err(lib.userEntityError(CreateUserEntity(user)).value) && meta.rows == old(meta.rows)
      ensures lib.userEntityError(CreateUserEntity(user)).None? ==>
                r.Ok? &&
                (Truthy(challenge) ==> r.value.challenge == challenge.value) &&
                (!Truthy(challenge) ==> IsUuid4(r.value.challenge)) &&
                r.value == CreationOptionsFor(user, r.value.challenge) &&
                meta.rows == old(meta.rows)[(user.id, ChallengeKey) := Text(StripSlashes(r.value.challenge))]
    {
      var refused := lib.userEntityError(CreateUserEntity(user));
      if refused.Some? {
        return Err(refused.value);
      }
      var c: string;
      if Truthy(challenge) {
        c := challenge.value;
      } else {
        SampleIsUuid4();
        c :| IsUuid4(c);
      }
      r := Ok(CreationOptionsFor(user, c));
      meta.Update(user.id, ChallengeKey, Text(c));
    }

    /** validate_attestation_response as a function of the table before
        the call and of the UUID a regeneration would produce. */
    ghost function AttestationOutcome(data: string, user: WpUser, rows: Rows, uuid: string): (run: AttestationRun)
      requires ChallengesAreText(rows)
    {
      match lib.load(data)
      case Err(e) => AttestationRun(Err(e), rows, None)
      case Ok(credential) =>
        if !credential.response.AttestationResponse? then
          AttestationRun(Err(InvalidData(InvalidRequest)), rows, None)
        else
          if lib.userEntityError(CreateUserEntity(user)).Some? then
            AttestationRun(Err(lib.userEntityError(CreateUserEntity(user)).value), rows, None)
          else
          var stored := if (user.id, ChallengeKey) in rows then rows[(user.id, ChallengeKey)].text else "";
          var challenge := if Truthy(Some(stored)) then stored else uuid;
          var options := CreationOptionsFor(user, challenge);
          var written := rows[(user.id, ChallengeKey) := Text(StripSlashes(challenge))];
          match lib.checkAttestation(credential.response, options, domain)
          case Err(e) => AttestationRun(Err(e), written, Some(options))
          case Ok(src) => AttestationRun(Ok(src), written - {(user.id, ChallengeKey)}, Some(options))
    }

    /** validate_attestation_response: load the response, insist on an
        attestation, rebuild the options from the stored challenge (which
        stores it again, or a new UUID when none was stored), check, and
        delete the challenge once the check has returned. */
    method ValidateAttestationResponse(data: string, user: WpUser) returns (r: Result<Source, Failure>)
      requires ChallengesAreText(meta.rows)
      modifies meta
      ensures exists uuid :: IsUuid4(uuid) &&
                var run := AttestationOutcome(data, user, old(meta.rows), uuid);
                r == run.result && meta.rows == run.rows
    {
      SampleIsUuid4();
      ghost var rows0 := meta.rows;
      var loaded := lib.load(data);
      if loaded.Err? {
        assert AttestationOutcome(data, user, rows0, SampleUuid4).result == Err(loaded.error);
        return Err(loaded.error);
      }
      var credential := loaded.value;
      if !credential.response.AttestationResponse? {
        assert AttestationOutcome(data, user, rows0, SampleUuid4).rows == rows0;
        return Err(InvalidData(InvalidRequest));
      }
      var challenge := meta.Get(user.id, ChallengeKey).text;
      var created := CreateAttestationRequest(user, Some(challenge));
      if created.Err? {
        assert AttestationOutcome(data, user, rows0, SampleUuid4).rows == rows0;
        return Err(created.error);
      }
      var options := created.value;
      ghost var uuid := if Truthy(Some(challenge)) then SampleUuid4 else options.challenge;
      ghost var run := AttestationOutcome(data, user, rows0, uuid);
      var checked := lib.checkAttestation(credential.response, options, domain);
      if checked.Err? {
        r := Err(checked.error);
        assert r == run.result && meta.rows == run.rows;
        return;
      }
      var _ := meta.Delete(user.id, ChallengeKey);
      r := Ok(checked.value);
      assert r == run.result && meta.rows == run.rows;
    }

    /** validate_assertion_response: load the response, insist on an
        assertion, and check it against options built around the fixed
        challenge 'ivan1234', whatever the user was sent. */
    function ValidateAssertionResponse(data: string): (r: Result<Source, Failure>)
      ensures lib.load(data).Err? ==> r == Err(lib.load(data).error)
      ensures lib.load(data).Ok? && !lib.load(data).value.response.AssertionResponse? ==>
                r == Err(InvalidData(InvalidRequest))
      ensures lib.load(data).Ok? && lib.load(data).value.response.AssertionResponse? ==>
                r == lib.checkAssertion(lib.load(data).value.rawId, lib.load(data).value.response,
                                        RequestOptions(HardCodedChallenge, None), domain)
    {
      match lib.load(data)
      case Err(e) => Err(e)
      case Ok(credential) =>
        if !credential.response.AssertionResponse? then Err(InvalidData(InvalidRequest))
        else
          var options := CreateAssertionRequest(Some(HardCodedChallenge));
          lib.checkAssertion(credential.rawId, credential.response, options, domain)
    }

    // -------------------------------------------------------------------
    // Properties of the challenge lifecycle

    /** A loaded response of the wrong kind is refused before any challenge
        is consulted: the table is left as it was. */
    lemma WrongKindRejected(data: string, user: WpUser, rows: Rows, uuid: string)
      requires ChallengesAreText(rows)
      requires lib.load(data).Ok? && !lib.load(data).value.response.AttestationResponse?
      ensures AttestationOutcome(data, user, rows, uuid) == AttestationRun(Err(InvalidData(InvalidRequest)), rows, None)
    {
    }

    /** Once the response is an attestation, the user's challenge is gone
        afterwards exactly when the check returned. */
    lemma ChallengeRemovedIffAccepted(data: string, user: WpUser, rows: Rows, uuid: string)
      requires ChallengesAreText(rows)
      requires lib.load(data).Ok? && lib.load(data).value.response.AttestationResponse?
      requires lib.userEntityError(CreateUserEntity(user)).None?
      ensures var run := AttestationOutcome(data, user, rows, uuid);
              (user.id, ChallengeKey) !in run.rows <==> run.result.Ok?
      ensures var run := AttestationOutcome(data, user, rows, uuid);
              forall p :: p in rows && p != (user.id, ChallengeKey) ==> p in run.rows && run.rows[p] == rows[p]
    {
    }

    /** A user entity the library refuses ends the call after the kind
        check: the exception is passed on, nothing is checked and the table
        is left as it was. */
    lemma RefusedUserKeepsTable(data: string, user: WpUser, rows: Rows, uuid: string)
      requires ChallengesAreText(rows)
      requires lib.load(data).Ok? && lib.load(data).value.response.AttestationResponse?
      requires lib.userEntityError(CreateUserEntity(user)).Some?
      ensures AttestationOutcome(data, user, rows, uuid) ==
              AttestationRun(Err(lib.userEntityError(CreateUserEntity(user)).value), rows, None)
    {
    }

    /** A truthy stored challenge is the one checked, and a failed check
        leaves the table as it was (for a challenge without backslashes,
        which is what create_attestation_request stores for a UUID). */
    lemma FailedCheckKeepsChallenge(data: string, user: WpUser, rows: Rows, uuid: string)
      requires ChallengesAreText(rows)
      requires lib.load(data).Ok? && lib.load(data).value.response.AttestationResponse?
      requires lib.userEntityError(CreateUserEntity(user)).None?
      requires (user.id, ChallengeKey) in rows && Truthy(Some(rows[(user.id, ChallengeKey)].text))
      requires forall i :: 0 <= i < |rows[(user.id, ChallengeKey)].text| ==> rows[(user.id, ChallengeKey)].text[i] != '\\'
      ensures var run := AttestationOutcome(data, user, rows, uuid);
              run.checked.Some? && run.checked.value.challenge == rows[(user.id, ChallengeKey)].text &&
              (run.result.Err? ==> run.rows == rows)
    {
      var c := rows[(user.id, ChallengeKey)].text;
      StripSlashesWithout(c);
      assert rows[(user.id, ChallengeKey) := Text(c)] == rows;
    }

    /** With no usable stored challenge, a new UUID is generated, checked
        against and, if the check fails, left stored: the client's response
        was made for a challenge the server no longer has. */
    lemma MissingChallengeRegenerated(data: string, user: WpUser, rows: Rows, uuid: string)
      requires ChallengesAreText(rows)
      requires lib.load(data).Ok? && lib.load(data).value.response.AttestationResponse?
      requires lib.userEntityError(CreateUserEntity(user)).None?
      requires (user.id, ChallengeKey) !in rows || !Truthy(Some(rows[(user.id, ChallengeKey)].text))
      requires IsUuid4(uuid)
      ensures var run := AttestationOutcome(data, user, rows, uuid);
              run.checked.Some? && run.checked.value.challenge == uuid &&
              (run.result.Err? ==> run.rows == rows[(user.id, ChallengeKey) := Text(uuid)])
    {
      Uuid4StoredVerbatim(uuid);
    }

    /** The attestation validator writes only the challenge key, so it keeps
        every challenge row text and leaves stored credentials alone. */
    lemma AttestationKeepsChallengesText(data: string, user: WpUser, rows: Rows, uuid: string)
      requires ChallengesAreText(rows)
      ensures ChallengesAreText(AttestationOutcome(data, user, rows, uuid).rows)
    {
    }

    /** Every assertion is checked against the options create_assertion_request
        builds without a challenge, whatever the user was sent: sign-in
        options issued around any other truthy challenge are never the ones
        checked. */
    lemma AssertionChallengeIsFixed(data: string, issued: Option<string>)
      requires lib.load(data).Ok? && lib.load(data).value.response.AssertionResponse?
      ensures ValidateAssertionResponse(data) ==
              lib.checkAssertion(lib.load(data).value.rawId, lib.load(data).value.response,
                                 CreateAssertionRequest(None), domain)
      ensures CreateAssertionRequest(issued) == CreateAssertionRequest(None) <==>
              !Truthy(issued) || issued.value == HardCodedChallenge
    {
    }
  }

  // ---------------------------------------------------------------------
  // Properties of the tables

  /** The registration parameters are twelve "public-key" entries for the
      algorithms in the order the algorithm manager registers them, with no
      identifier repeated. */
  lemma ParametersMatchManager()
    ensures |ParametersList()| == |AlgorithmManager()| == 12
    ensures forall i :: 0 <= i < 12 ==>
              ParametersList()[i].credType == "public-key" &&
              ParametersList()[i].alg == Identifier(AlgorithmManager()[i])
    ensures forall i, j :: 0 <= i < j < 12 ==> ParametersList()[i].alg != ParametersList()[j].alg
  {
    var p, m := ParametersList(), AlgorithmManager();
    forall i, j | 0 <= i < j < 12
      ensures p[i].alg != p[j].alg
    {
      IdentifierInjective(m[i], m[j]);
    }
  }

  lemma IdentifierInjective(a: CoseAlgorithm, b: CoseAlgorithm)
    ensures Identifier(a) == Identifier(b) ==> a == b
  {
  }

  /** The manager lists each algorithm once, so every algorithm offered at
      registration is accepted at sign-in and nothing else is. */
  lemma ManagerListsEveryAlgorithmOnce()
    ensures forall a :: a in AlgorithmManager()
    ensures forall i, j :: 0 <= i < j < |AlgorithmManager()| ==> AlgorithmManager()[i] != AlgorithmManager()[j]
  {
    var m := AlgorithmManager();
    forall a
      ensures a in m
    {
      var i := match a
        case ES256 => 0 case ES256K => 1 case ES384 => 2 case ES512 => 3
        case RS256 => 4 case RS384 => 5 case RS512 => 6 case PS256 => 7
        case PS384 => 8 case PS512 => 9 case ED256 => 10 case ED512 => 11;
      assert m[i] == a;
    }
  }

  // ---------------------------------------------------------------------
  // What the browser makes of these options

  /** The number of bytes TextEncoder produces for s (UTF-8). */
  function Utf8Length(s: string): (n: nat)
    ensures n >= |s|
  {
    if s == [] then 0
    else
      (if s[0] as int < 0x80 then 1 else if s[0] as int < 0x800 then 2
       else if s[0] as int < 0x10000 then 3 else 4) + Utf8Length(s[1..])
  }

  /** The creation options as the bundle's registration call `v` passes
      them to navigator.credentials.create, when the page has received o
      with userIdText as the text of user.id: `v` text-encodes that text and
      attaches an abort signal from the shared abort service. How the
      library serializes user.id is a parameter, not part of this model. */
  function ToBrowserCreation(o: CreationOptions, userIdText: string): (r: CeremonyErrors.CreationRequest)
    ensures r.publicKey.Some? && r.hasAbortSignal
    ensures r.publicKey.value.rp.id == Some(o.rp.id)
    ensures r.publicKey.value.userIdByteLength == Utf8Length(userIdText)
    ensures |r.publicKey.value.pubKeyCredParams| == |o.pubKeyCredParams|
    ensures forall i :: 0 <= i < |o.pubKeyCredParams| ==>
              r.publicKey.value.pubKeyCredParams[i].credType == o.pubKeyCredParams[i].credType &&
              r.publicKey.value.pubKeyCredParams[i].alg == o.pubKeyCredParams[i].alg
  {
    var sel := o.authenticatorSelection;
    CeremonyErrors.CreationRequest(
      Some(CeremonyErrors.CreationPublicKey(
        CeremonyErrors.RpEntity(Some(o.rp.id)),
        Utf8Length(userIdText),
        seq(|o.pubKeyCredParams|, i requires 0 <= i < |o.pubKeyCredParams| =>
          CeremonyErrors.CredParam(o.pubKeyCredParams[i].credType, o.pubKeyCredParams[i].alg)),
        Some(CeremonyErrors.AuthenticatorSelection(Some(sel.requireResidentKey), Some(sel.userVerification))))),
      true)
  }

  /** The request options as the sign-in call passes them to
      navigator.credentials.get. */
  function ToBrowserRequest(o: RequestOptions): (r: CeremonyErrors.GetRequest)
    ensures r.publicKey.Some? && r.publicKey.value.rpId == o.rpId && r.hasAbortSignal
  {
    CeremonyErrors.GetRequest(Some(CeremonyErrors.RequestPublicKey(o.rpId)), true)
  }

  /** With the server's registration options, a ConstraintError is always
      reported as missing discoverable-credential support, a
      NotSupportedError never as malformed parameters, and a TypeError as
      an invalid user id exactly when the user id text the page received is
      empty or longer than 64 UTF-8 bytes. */
  lemma RegistrationErrorsForServerOptions(s: Server, user: WpUser, challenge: string, userIdText: string,
                                           e: CeremonyErrors.DomException, hostname: string)
    ensures var request := ToBrowserCreation(s.CreationOptionsFor(user, challenge), userIdText);
            var code := CeremonyErrors.CodeOf(CeremonyErrors.ClassifyRegistrationError(e, request, hostname));
            (e.name == "ConstraintError" ==> code == Some(CeremonyErrors.MissingDiscoverableCredentialSupport)) &&
            (e.name == "NotSupportedError" ==> code == Some(CeremonyErrors.NoSupportedPubKeyCredParamsAlg)) &&
            (code == Some(CeremonyErrors.InvalidUserIdLength) <==>
               e.name == "TypeError" && (Utf8Length(userIdText) < 1 || Utf8Length(userIdText) > 64))
  {
    var request := ToBrowserCreation(s.CreationOptionsFor(user, challenge), userIdText);
    var params := request.publicKey.value.pubKeyCredParams;
    assert params[0].credType == "public-key";
    assert CeremonyErrors.HasPublicKeyParam(params);
    CeremonyErrors.UserIdLengthIff(e, request, hostname);
  }

  /** The sign-in options carry no relying-party id, so on any valid host a
      SecurityError is reported as an invalid RP id. */
  lemma SignInSecurityErrorOnValidHost(challenge: Option<string>, e: CeremonyErrors.DomException, hostname: string)
    requires e.name == "SecurityError"
    ensures var request := ToBrowserRequest(CreateAssertionRequest(challenge));
            var code := CeremonyErrors.CodeOf(CeremonyErrors.ClassifyAuthenticationError(e, request, hostname));
            code == if HostName.IsValidDomain(hostname) then Some(CeremonyErrors.InvalidRpId)
                    else Some(CeremonyErrors.InvalidDomain)
  {
  }
}
