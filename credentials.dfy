/** A public key credential source as the plugin stores it, and its array
    form. The plugin relies on the array form carrying the binary fields as
    unpadded base64url text: it decodes userHandle with decodeNoPadding
    before the owner lookup, and it derives the storage key of a credential
    from the encoded id. The array form and its decoder are the webauthn
    library's; they are modelled here to that extent and no further. */
module Credentials {
  import opened Outcomes
  import opened Base64

  /** PublicKeyCredentialSource. The id, the COSE public key and the user
      handle are binary strings; the user handle is the owner's login. */
  datatype Source = Source(
    publicKeyCredentialId: seq<uint8>,
    credentialType: string,
    transports: seq<string>,
    attestationType: string,
    aaguid: string,
    credentialPublicKey: seq<uint8>,
    userHandle: seq<uint8>,
    counter: int)

  /** The array jsonSerialize returns, with the binary fields as text. */
  datatype SerializedSource = SerializedSource(
    publicKeyCredentialId: string,
    credentialType: string,
    transports: seq<string>,
    attestationType: string,
    aaguid: string,
    credentialPublicKey: string,
    userHandle: string,
    counter: int)

  /** jsonSerialize: the binary fields become unpadded base64url text, the
      others are copied. */
  function Serialize(s: Source): (r: SerializedSource)
    ensures r.publicKeyCredentialId == UrlEncode(s.publicKeyCredentialId)
    ensures r.userHandle == UrlEncode(s.userHandle)
    ensures r.credentialPublicKey == UrlEncode(s.credentialPublicKey)
    ensures r.credentialType == s.credentialType && r.transports == s.transports &&
            r.attestationType == s.attestationType && r.aaguid == s.aaguid && r.counter == s.counter
  {
    SerializedSource(UrlEncode(s.publicKeyCredentialId), s.credentialType, s.transports,
                     s.attestationType, s.aaguid, UrlEncode(s.credentialPublicKey),
                     UrlEncode(s.userHandle), s.counter)
  }

  /** createFromArray: decode the three binary fields, failing with an
      InvalidDataException when one of them is not unpadded base64url. */
  function CreateFromArray(a: SerializedSource): (r: Result<Source, Failure>)
    ensures r.Ok? <==> DecodeNoPadding(a.publicKeyCredentialId).Some? &&
                       DecodeNoPadding(a.credentialPublicKey).Some? &&
                       DecodeNoPadding(a.userHandle).Some?
    ensures r.Err? ==> r.error.InvalidData?
    ensures r.Ok? ==> r.value.credentialType == a.credentialType && r.value.transports == a.transports &&
                      r.value.attestationType == a.attestationType && r.value.aaguid == a.aaguid &&
                      r.value.counter == a.counter
  {
    match (DecodeNoPadding(a.publicKeyCredentialId), DecodeNoPadding(a.credentialPublicKey), DecodeNoPadding(a.userHandle))
    case (Some(id), Some(key), Some(handle)) =>
      Ok(Source(id, a.credentialType, a.transports, a.attestationType, a.aaguid, key, handle, a.counter))
    case _ => Err(InvalidData("Invalid credential source."))
  }

  /** Round trip: createFromArray(jsonSerialize(s)) == s. */
  lemma CreateFromSerialized(s: Source)
    ensures CreateFromArray(Serialize(s)) == Ok(s)
  {
    DecodeNoPaddingOfUrlEncode(s.publicKeyCredentialId);
    DecodeNoPaddingOfUrlEncode(s.credentialPublicKey);
    DecodeNoPaddingOfUrlEncode(s.userHandle);
  }
}
