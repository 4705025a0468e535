# wp-passkey in Dafny

A model of the parts of the WordPress passkey plugin that carry decisions,
with proofs of what they promise:

- **The credential store** (`Source_Repository`, module `SourceRepository`).
  It keeps one JSON record per credential in the usermeta table, under
  `wp_passkey_` followed by a credential id.
  - save and delete derive the key from the unpadded base64url encoding of
    the raw id; find prefixes the id exactly as it is given. The model
    keeps that mismatch as written, and the lemmas state its consequences.
  - The per-user listing matches every `wp_passkey_` key. That includes
    the registration challenge row, which the listing then filters out
    because it does not decode to a record.
  - `get_row` and `get_results` return rows in an order SQL leaves open.
    So find may read the row of any user holding the key, and the listing
    is specified for every order of the user's keys.
- **The usermeta table** (module `UserMeta`). It is a class holding a map
  from (user id, meta key) to a value.
  - `update_user_meta` unslashes what it is given, as WordPress does.
  - The plugin's `addcslashes` on the JSON text is shown to cancel that.
  - `get_user_meta(..., true)` yields `''` for a missing row.
  - `delete_user_meta` reports whether a row existed.
- **The ceremony server** (`Webauthn_Server`, module `WebauthnServer`).
  - Its fixed tables: twelve COSE algorithms, the authenticator selection,
    the user entity, timeout 30000 ms and attestation `none`.
  - The registration challenge lifecycle: write, read, rewrite, delete on
    success.
  - Sign-in, which checks every assertion against the fixed challenge
    `ivan1234`.
  - The webauthn library's loader, its refusal of a user entity and its
    two response checks are oracles the server holds.
  - The UUID generator is a nondeterministic choice of a UUIDv4-shaped
    string.
- **The browser bundle's helpers**, from the compiled file
  `assets/dist/assets/index-5360b657.js`:
  - `u` and `w`, the base64url encoder and decoder (module `ClientCodec`,
    over an RFC 4648 codec and a model of `btoa`/`atob` in `Base64`);
  - `A`, the host-name check (module `HostName`);
  - `_`, `C` and `N`, the attachment filter and the two error
    classifiers (module `CeremonyErrors`);
  - class `S`, the one-live-call abort service (module `AbortService`).

The ceremony server's options are also connected to the browser's
classifiers. With the server's selection, a ConstraintError is always
reported as missing discoverable-credential support. With the sign-in
options, which carry no relying-party id, a SecurityError on a valid host
is always reported as an invalid RP id.

Where a behaviour depends on an outside service, the service is a
parameter or a class constant:

- the login lookup `get_user_by` is a function;
- the clock is an argument;
- the site's name and host are constants;
- `window.location.hostname` is an argument.

## Model

| member | source | states |
|---|---|---|
| Base64.OctetsOfSextets | assets/dist/assets/index-5360b657.js:1 | Regrouping the 6-bit groups of any byte sequence into bytes gives the bytes back (RFC 4648 sections 4 and 5). |
| Base64.DecodeNoPaddingOfUrlEncode | inc/class-source-repository.php:103 | decodeNoPadding inverts encodeUnpadded on every byte sequence. |
| Base64.UrlEncodeInjective | inc/class-source-repository.php:130 | Distinct credential ids have distinct encodings, so distinct storage keys. |
| Base64.UrlEncodeLength | inc/class-source-repository.php:116 | An unpadded encoding never has length 1 mod 4, and is longer than a non-empty input. |
| Base64.AtobOfPadded | assets/dist/assets/index-5360b657.js:1 | atob of the padded standard encoding of bytes b is the binary string of b. |
| ClientCodec.PadCount | assets/dist/assets/index-5360b657.js:1 | w appends between 0 and 3 '=' and reaches a multiple of four. |
| ClientCodec.PadEnd | assets/dist/assets/index-5360b657.js:1 | padEnd keeps the text as a prefix, adds only '=' and makes the length a multiple of four. |
| ClientCodec.ToBase64Url | assets/dist/assets/index-5360b657.js:1 | u's loop and rewriting produce the unpadded RFC 4648 section 5 encoding, which contains no '+', '/' or '='. |
| ClientCodec.FromBase64Url | assets/dist/assets/index-5360b657.js:1 | w fills its buffer with the bytes atob decodes from the padded standard text, and w(u(b)) == b for every b. |
| ClientCodec.UrlFromStandard | assets/dist/assets/index-5360b657.js:1 | btoa's output with '+'→'-', '/'→'_' and '=' removed is the unpadded URL-safe encoding. |
| ClientCodec.PadRestoresPadding | assets/dist/assets/index-5360b657.js:1 | w's substitutions and padding turn u's output back into btoa's output. |
| ClientCodec.DecodeInvertsEncode | assets/dist/assets/index-5360b657.js:1 | Round trip: atob on w's padded text of u(b) gives b's binary string, whose char codes are b. |
| HostName.LabelIff | assets/dist/assets/index-5360b657.js:1 | The label part of A's pattern accepts exactly non-empty runs of letters, digits and single inner hyphens. |
| HostName.DottedIff | assets/dist/assets/index-5360b657.js:1 | The repeated group accepts exactly dot-terminated text whose '-' and '.' each follow a letter or digit. |
| HostName.HostIff | assets/dist/assets/index-5360b657.js:1 | A(h) holds exactly for "localhost", or for dotted labels followed by two or more letters to the end. |
| HostName.ExampleComIsValid | assets/dist/assets/index-5360b657.js:1 | A accepts "example.com". |
| HostName.Ipv4IsInvalid | assets/dist/assets/index-5360b657.js:1 | A rejects the IPv4 address "127.0.0.1". |
| HostName.PunycodeIsInvalid | assets/dist/assets/index-5360b657.js:1 | A rejects a punycode label ("xn--p1ai.ru"), because of the double hyphen. |
| HostName.LeadingHyphenIsInvalid | assets/dist/assets/index-5360b657.js:1 | A rejects a label with a leading hyphen. |
| CeremonyErrors.FilterAttachment | assets/dist/assets/index-5360b657.js:1 | _(x) returns x exactly when x is "cross-platform" or "platform", and undefined otherwise. |
| CeremonyErrors.SecurityErrorRule | assets/dist/assets/index-5360b657.js:1 | Invalid host → ERROR_INVALID_DOMAIN; a valid host that differs from the RP id → ERROR_INVALID_RP_ID; otherwise the original error. |
| CeremonyErrors.ClassifyRegistrationError | assets/dist/assets/index-5360b657.js:1 | C throws exactly when publicKey is missing; every wrapped error has the original as cause and takes its name. |
| CeremonyErrors.ClassifyAuthenticationError | assets/dist/assets/index-5360b657.js:1 | N throws exactly when publicKey is missing; every wrapped error has the original as cause and takes its name. |
| CeremonyErrors.DiscoverableIff | assets/dist/assets/index-5360b657.js:1 | The missing-discoverable-credential code is given iff a ConstraintError meets requireResidentKey === true, before any check of user verification. |
| CeremonyErrors.UserVerificationIff | assets/dist/assets/index-5360b657.js:1 | The missing-user-verification code is given iff a ConstraintError meets userVerification "required" without requireResidentKey true. |
| CeremonyErrors.UserIdLengthIff | assets/dist/assets/index-5360b657.js:1 | ERROR_INVALID_USER_ID_LENGTH is given iff a TypeError meets a user id shorter than 1 or longer than 64 bytes. |
| CeremonyErrors.NotSupportedSplit | assets/dist/assets/index-5360b657.js:1 | A NotSupportedError gives MALFORMED_PUBKEYCREDPARAMS iff no parameter is "public-key", and NO_SUPPORTED_ALG iff one is. |
| CeremonyErrors.RegistrationSecurityError | assets/dist/assets/index-5360b657.js:1 | C's SecurityError rule, stated with the character-level host description: all three outcomes, each as an iff. |
| CeremonyErrors.RegistrationAbortIff | assets/dist/assets/index-5360b657.js:1 | ERROR_CEREMONY_ABORTED is given iff an AbortError meets options carrying a signal. |
| CeremonyErrors.RegistrationUnmatched | assets/dist/assets/index-5360b657.js:1 | Any exception name C does not handle comes back unchanged. |
| CeremonyErrors.RegistrationAlwaysWrapped | assets/dist/assets/index-5360b657.js:1 | InvalidStateError, NotAllowedError and UnknownError map to their codes (each an iff); NotAllowedError keeps the browser's message. |
| CeremonyErrors.AuthenticationSecurityError | assets/dist/assets/index-5360b657.js:1 | N's SecurityError rule with rpId: all three outcomes, each as an iff. |
| CeremonyErrors.AuthenticationCodes | assets/dist/assets/index-5360b657.js:1 | N's abort, pass-through and general codes, each as an iff, and N never yields a registration-only code. |
| CeremonyErrors.AuthenticationUnmatched | assets/dist/assets/index-5360b657.js:1 | Any exception name N does not handle comes back unchanged. |
| AbortService.AbortController.Abort | assets/dist/assets/index-5360b657.js:1 | abort marks the signal; the first reason is kept if the signal was already aborted. |
| AbortService.AbortServiceState.constructor | assets/dist/assets/index-5360b657.js:1 | A new service holds no controller and has issued no signal. |
| AbortService.AbortServiceState.CreateNewAbortSignal | assets/dist/assets/index-5360b657.js:1 | createNewAbortSignal aborts the previous controller with the "Cancelling existing WebAuthn API call for new one" AbortError, then stores and returns a fresh, live signal, so only the newest signal is live. |
| AbortService.AbortServiceState.OnlyNewestIsLive | assets/dist/assets/index-5360b657.js:1 | Under the service's invariant, an issued signal is un-aborted iff it is the newest. |
| Credentials.Serialize | inc/class-source-repository.php:101 | The serialized form carries the id, public key and user handle as unpadded base64url, and the other fields unchanged. |
| Credentials.CreateFromArray | inc/class-source-repository.php:41 | createFromArray succeeds iff the three binary fields decode, and fails with InvalidDataException otherwise. |
| Credentials.CreateFromSerialized | inc/class-source-repository.php:101-116 | createFromArray(jsonSerialize(s)) == s. |
| UserMeta.StripAddedSlashes | inc/class-source-repository.php:115-116 | update_user_meta's unslashing undoes addcslashes(json, '\\'), so the JSON is stored as encoded. |
| UserMeta.StripSlashesWithout | inc/class-webauthn-server.php:152 | Text without backslashes is stored unchanged. |
| UserMeta.Unslashed | inc/class-source-repository.php:116 | Records are stored as given; text is unslashed and never grows. |
| UserMeta.UserMetaTable.Update | inc/class-webauthn-server.php:152 | update_user_meta sets the user's value under the key to the unslashed argument and changes nothing else. |
| UserMeta.UserMetaTable.Delete | inc/class-source-repository.php:139 | delete_user_meta removes exactly that row and returns true iff it existed. |
| UserMeta.UserMetaTable.Get | inc/class-webauthn-server.php:215 | get_user_meta(…, true) returns the stored value, or '' when there is none. |
| SourceRepository.CredentialKey | inc/class-source-repository.php:33 | The key is "wp_passkey_" followed by the id, unchanged. |
| SourceRepository.Owners | inc/class-source-repository.php:33 | The users holding a row under a key. |
| SourceRepository.ReadRow | inc/class-source-repository.php:35-41 | '' and '0' give null and nothing else does; other text is a TypeError; a record createFromArray accepts gives that source, and one it refuses gives its exception. |
| SourceRepository.FindResults | inc/class-source-repository.php:30-42 | With no row under the key the result is null; otherwise it is the reading of some owner's row, and every owner's row is possible. |
| SourceRepository.UserKeys | inc/class-source-repository.php:62-66 | The rows the listing query selects: this user's rows whose key starts with "wp_passkey_". |
| SourceRepository.ListOne | inc/class-source-repository.php:72-88 | Text is filtered out; a record createFromArray accepts is listed as that source with its name (or '' when absent) and its created entry; a refused record passes its exception on. |
| SourceRepository.Record | inc/class-source-repository.php:111-112 | The saved record is the serialized source, with name = the encoded user handle and created = the time. |
| SourceRepository.SavedRows | inc/class-source-repository.php:111-116 | Save adds or replaces exactly one row, under the encoded id, writing there the serialized source with name and created; every other row is kept. |
| SourceRepository.CredentialStore.FindOneByCredentialId | inc/class-source-repository.php:30-42 | findOneByCredentialId returns one of the results FindResults allows. |
| SourceRepository.CredentialStore.FindAllForUserEntity | inc/class-source-repository.php:51-91 | An unknown login throws 'User not found.' (400); otherwise the result is the listing of the user's passkey rows in some order of its keys. |
| SourceRepository.CredentialStore.SaveCredentialSource | inc/class-source-repository.php:100-117 | An unknown owner throws 'User not found.' (400) and writes nothing; otherwise the table becomes SavedRows. |
| SourceRepository.CredentialStore.DeleteCredentialSource | inc/class-source-repository.php:129-144 | Unknown owner → 'User not found.' (404); no row → 'Unable to delete credential source.' (500); both leave the table unchanged. Otherwise exactly that row is removed. |
| SourceRepository.FindAfterSave | inc/class-source-repository.php:116 | After a save, find by the encoded id yields exactly the saved source, when no other user holds that key. |
| SourceRepository.FindRawIdIgnoresSave | inc/class-source-repository.php:33 | Find by the raw non-empty id never sees what save wrote: its results are those before the save. |
| SourceRepository.SaveKeepsChallengesText | inc/class-webauthn-server.php:152 | Save never writes the challenge key, so the challenge rows stay text. |
| SourceRepository.SaveOverwrites | inc/class-source-repository.php:116 | A second save of the same credential for the same owner replaces the first record. |
| SourceRepository.FindAfterDelete | tests/php/test-source-repository.php:161-178 | After the owner's row is deleted, find by the encoded id yields null. |
| SourceRepository.ListedFromOwnRows | inc/class-source-repository.php:62-90 | Every listed credential decodes from a record row of that user. |
| SourceRepository.TextRowsSkipped | inc/class-source-repository.php:79-80 | Text rows, such as the challenge, are never listed; a user with only text rows gets []. |
| SourceRepository.ListingCountsRecords | inc/class-source-repository.php:72-90 | When every record decodes, the listing has one entry per record row, in any order. |
| SourceRepository.ErrorPersists | inc/class-source-repository.php:82-90 | The first record createFromArray refuses decides the exception of the whole listing. |
| WebauthnServer.Identifier | inc/class-webauthn-server.php:80-91 | Every COSE identifier offered is negative. |
| WebauthnServer.ParametersList | inc/class-webauthn-server.php:78-93 | The parameter list has twelve entries. |
| WebauthnServer.AlgorithmManager | inc/class-webauthn-server.php:289-307 | The manager registers twelve algorithms. |
| WebauthnServer.ParametersMatchManager | inc/class-webauthn-server.php:78-93 | Twelve "public-key" entries in the order ES256, ES256K, ES384, ES512, RS256, RS384, RS512, PS256, PS384, PS512, ED256, ED512. They are exactly the manager's algorithms, in its order, with no identifier repeated. |
| WebauthnServer.ManagerListsEveryAlgorithmOnce | inc/class-webauthn-server.php:289-307 | The manager lists every algorithm, each once. |
| WebauthnServer.GetAuthenticatorSelection | inc/class-webauthn-server.php:100-104 | Resident key required (so requireResidentKey is true), platform attachment, user verification left at "preferred". |
| WebauthnServer.CreateUserEntity | inc/class-webauthn-server.php:112-121 | The user entity's name and id are both the login, and its display name is the display name. |
| WebauthnServer.CreateAssertionRequest | inc/class-webauthn-server.php:163-177 | A truthy challenge is kept, otherwise 'ivan1234'; no RP id is set. |
| WebauthnServer.Uuid4StoredVerbatim | inc/class-webauthn-server.php:137-152 | A generated UUID is stored exactly as it appears in the options. |
| WebauthnServer.SampleIsUuid4 | inc/class-webauthn-server.php:138 | The UUIDv4 shape can be met, so a challenge can always be generated. |
| WebauthnServer.Server.RelyingParty | inc/class-webauthn-server.php:63-71 | The RP entity is named after the blog, with the site's host as id. |
| WebauthnServer.Server.CreationOptionsFor | inc/class-webauthn-server.php:141-149 | The creation options always carry the parameter list, the selection, timeout 30000 and attestation 'none'. |
| WebauthnServer.Server.CreateAttestationRequest | inc/class-webauthn-server.php:129-155 | When the library refuses the user entity, its InvalidDataException is thrown and nothing is stored. Otherwise a truthy challenge is kept verbatim, else a UUIDv4 is used; the options are built around it, the user's wp_passkey_challenge becomes the challenge as update_user_meta stores it, and no other row changes. |
| WebauthnServer.Server.RefusedUserKeepsTable | inc/class-webauthn-server.php:215-217 | When the re-created options fail on a refused user entity, the exception is passed on, nothing is checked and the table is unchanged. |
| WebauthnServer.Server.ValidateAttestationResponse | inc/class-webauthn-server.php:188-231 | The result and the new table are those of AttestationOutcome, for some generated UUIDv4. |
| WebauthnServer.Server.ValidateAssertionResponse | inc/class-webauthn-server.php:241-282 | A failed load throws its error; a non-assertion throws 'Invalid request.'; otherwise the result is the check against challenge 'ivan1234' and no RP id. |
| WebauthnServer.Server.WrongKindRejected | inc/class-webauthn-server.php:203-205 | A response that is not an attestation throws 'Invalid request.' before any challenge is read; the table is unchanged and no check runs. |
| WebauthnServer.Server.ChallengeRemovedIffAccepted | inc/class-webauthn-server.php:215-228 | Once past the kind check, with the user entity accepted, the challenge row is gone afterwards iff the check returned, and every other row is unchanged. |
| WebauthnServer.Server.FailedCheckKeepsChallenge | inc/class-webauthn-server.php:215-225 | A stored truthy challenge is the one checked. A failed check re-stores it through update_user_meta (line 152), which unslashes it again; for a challenge without backslashes, such as a UUID, the table is therefore unchanged. |
| WebauthnServer.Server.MissingChallengeRegenerated | inc/class-webauthn-server.php:137-139 | With no usable stored challenge (and the user entity accepted), a fresh UUID is checked against and stays stored when the check fails. |
| WebauthnServer.Server.AttestationKeepsChallengesText | inc/class-webauthn-server.php:215-228 | The validator keeps every challenge row text. |
| WebauthnServer.Server.AssertionChallengeIsFixed | inc/class-webauthn-server.php:268-270 | Every assertion is checked against create_assertion_request's options without a challenge; sign-in options issued around a challenge equal those iff the challenge is falsy or 'ivan1234', so any other issued challenge is never the one checked. |
| WebauthnServer.Utf8Length | assets/dist/assets/index-5360b657.js:1 | TextEncoder's output is at least as long as the text. |
| WebauthnServer.ToBrowserCreation | assets/dist/assets/index-5360b657.js:1 | For options the page received with a given user.id text, `v` passes the RP id and the parameters unchanged, the UTF-8 byte length of that text as the user id's length, and an abort signal. |
| WebauthnServer.ToBrowserRequest | assets/dist/assets/index-5360b657.js:1 | The browser receives the sign-in options' rpId and an abort signal. |
| WebauthnServer.RegistrationErrorsForServerOptions | inc/class-webauthn-server.php:100-104 | With the server's options, ConstraintError → missing discoverable credentials, and NotSupportedError → no supported algorithm, never malformed. TypeError → invalid user id iff the received user.id text is empty or longer than 64 UTF-8 bytes. |
| WebauthnServer.SignInSecurityErrorOnValidHost | inc/class-webauthn-server.php:163-170 | The sign-in options have no RP id, so a SecurityError is always ERROR_INVALID_RP_ID on a valid host and ERROR_INVALID_DOMAIN otherwise. |

## Left out

Some members stand for library or browser code that is not part of this model and have no row of their own: Base64.DecodeNoPadding (paragonie's decodeNoPadding), Base64.Btoa and Base64.Atob (the browser's primitives), SourceRepository.ListRows (the listing loop as a function of the key order, which FindAllForUserEntity is proved against) and WebauthnServer.Server.AttestationOutcome (validate_attestation_response as a function, which ValidateAttestationResponse is proved against).

- Cryptography and parsing inside the webauthn and COSE libraries: these are oracles. This covers the loader, both response checks, signature verification and CBOR/COSE decoding.
- The arguments the validators pass to the checks that never vary are not modelled: the secure relying-party list `['localhost']`, and the null user handle of the assertion check.
- Credentials.CreateFromArray: a stand-in for the library's decoder, covering only the fields the plugin relies on. trustPath and otherUI are not modelled, and the exception message is not the library's.
- Base64.DecodeNoPadding: does not model whether the library refuses an encoding whose unused trailing bits are non-zero. It accepts such text.
- SourceRepository.UserKeys: reads `LIKE 'wp_passkey_%'` as a prefix match. LIKE's `_` wildcard (which matches any character) and its case-insensitive collation are not modelled.
- SourceRepository.CredentialKey: meta keys are compared exactly. Under MySQL's default collation the `meta_key = %s` comparison behind find (class-source-repository.php:33), and the key lookups of update_user_meta and delete_user_meta, ignore case; the model does not.
- SourceRepository.ReadRow: meta values are either credential records or non-JSON text. Text that is itself JSON (a number, an array) is not modelled. json_decode of "0" gives 0, which the listing filters out like null.
- Duplicate usermeta rows for one user and key are not modelled. The table holds one value per (user, key), as update_user_meta maintains.
- WebauthnServer.Server.ValidateAttestationResponse: requires that the challenge key holds only text. That is an invariant of the plugin's writers (SaveKeepsChallengesText, AttestationKeepsChallengesText, CreateAttestationRequest), not something the source checks.
- get_current_domain returning null, when the site URL has no host, is a TypeError under strict types. The host is a string constant of the server here.
- WebauthnServer.Identifier: ES256 to PS512 carry their IANA COSE Algorithms registry values. -260 and -261 are the COSE library's own constants for Ed256 and Ed512; in the IANA registry -260 is WalnutDSA. The COSE library's constant table itself is not part of this model.
- WebauthnServer.GetAuthenticatorSelection: the library defaults are a stand-in (no attachment, no resident-key preference, user verification "preferred"). So is its rule that setting "required" sets requireResidentKey.
- The browser's asynchronous calls `v`, `K` and `P`, navigator.credentials and the DOM are I/O. Only how `v` and `K` shape the options (ToBrowserCreation, ToBrowserRequest) and attach the abort signal is modelled. The transport of the options from PHP to the page (the REST handlers, which are stubs returning empty arrays) is not part of this model.
- WebauthnServer.ToBrowserCreation, WebauthnServer.RegistrationErrorsForServerOptions: assume the page receives the server's creation options as JSON. The REST handlers that would carry them (inc/rest-api.php:77-120) return [], so the program has no such wiring. The text of user.id in that JSON depends on the library's serialization (it may be base64url of the login, not the login), so it is a parameter; the user-id length rule is stated for that text.
- WebauthnServer.Server.CreateAttestationRequest: the library's refusal of a user entity is an oracle (Web Authentication Level 2 section 5.4.3 caps the user handle at 64 bytes, which the library enforces); the other library constructors the method calls are taken not to throw.
- CeremonyErrors: option objects that are malformed beyond a missing publicKey are not modelled, such as a missing `rp` or `pubKeyCredParams`. JavaScript would throw a TypeError on the property access.
- ClientCodec.FromBase64Url: atob's exception is modelled as None.
- ClientCodec.ToBase64Url: a JavaScript string's UTF-16 code units are modelled as characters, which is exact for the binary strings u builds.
- The UI, login screens, build scripts and bootstrapping code are outside this model.
