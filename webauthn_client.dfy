/** The browser side of the ceremonies (static/webauthn.js): the base64url
    codec between JSON strings and `ArrayBuffer`s, the preformatting of the
    options the server sends, and the serialisation of the credential the
    authenticator returns. JavaScript values are modelled as a datatype, and
    thrown exceptions as `Err` results. */
module WebAuthnClient {
  import opened Wrappers
  import opened Octets
  import opened Base64

  /** The JavaScript values the script handles. A `JsView` is a typed array
      or `DataView` over the whole `buffer`, seen from `byteOffset` for
      `byteLength` octets. Numbers are integers. */
  datatype JsValue =
    | JsUndefined
    | JsNull
    | JsBool(b: bool)
    | JsNumber(n: int)
    | JsString(s: string)
    | JsArrayBuffer(bytes: Bytes)
    | JsView(buffer: Bytes, byteOffset: nat, byteLength: nat)
    | JsArray(items: seq<JsValue>)
    | JsObject(props: map<string, JsValue>)

  /** The exceptions the script can throw: `Error` is the one
      `toArrayBuffer` raises itself. */
  datatype JsError = Error(message: string) | TypeError | InvalidCharacterError

  /** JavaScript truthiness: `undefined`, `null`, `false`, `0` and `""` are
      false; every object is true. */
  predicate Truthy(v: JsValue) {
    match v
    case JsUndefined => false
    case JsNull => false
    case JsBool(b) => b
    case JsNumber(n) => n != 0
    case JsString(s) => s != []
    case _ => true
  }

  /** `o.name` on an object: the property, or `undefined`. */
  function Prop(o: map<string, JsValue>, name: string): (v: JsValue)
    ensures name !in o ==> v == JsUndefined
  {
    if name in o then o[name] else JsUndefined
  }

  // ---------------------------------------------------------------------
  // Binary strings, btoa and atob
  // ---------------------------------------------------------------------

  /** A string whose every code unit is at most 0xFF. */
  predicate IsBinaryString(s: string) {
    forall k :: 0 <= k < |s| ==> s[k] as int < 256
  }

  /** The octets a binary string stands for. */
  function CodeUnits(s: string): (b: Bytes)
    requires IsBinaryString(s)
    ensures |b| == |s|
  {
    seq(|s|, k requires 0 <= k < |s| => s[k] as int)
  }

  /** The binary string of some octets: `String.fromCharCode` of each. */
  function BinaryString(b: Bytes): (s: string)
    ensures |s| == |b| && IsBinaryString(s)
    ensures CodeUnits(s) == b
  {
    seq(|b|, k requires 0 <= k < |b| => b[k] as char)
  }

  /** `btoa`: standard base64 of a binary string; any other string throws. */
  function Btoa(s: string): (r: Result<string, JsError>)
    ensures r.Ok? <==> IsBinaryString(s)
  {
    if IsBinaryString(s) then Ok(Encode(CodeUnits(s))) else Err(InvalidCharacterError)
  }

  /** `atob`: the binary string of the forgiving-base64 decode, or an
      `InvalidCharacterError`. */
  function Atob(s: string): (r: Result<string, JsError>)
    ensures r.Ok? ==> IsBinaryString(r.value)
  {
    match Decode(s)
    case None => Err(InvalidCharacterError)
    case Some(b) => Ok(BinaryString(b))
  }

  /** `atob` undoes `btoa`: every binary string encodes, and its encoding
      decodes to the same string. */
  lemma BtoaAtobRoundTrip(s: string)
    requires IsBinaryString(s)
    ensures Btoa(s).Ok? && Atob(Btoa(s).value) == Ok(s)
  {
    var b := CodeUnits(s);
    EncodeRoundTrip(b);
    assert Btoa(s) == Ok(Encode(b));
    assert Atob(Encode(b)) == Ok(BinaryString(b));
    assert BinaryString(b) == s;
  }

  // ---------------------------------------------------------------------
  // The codec
  // ---------------------------------------------------------------------

  /** `toArrayBuffer`: a buffer is itself; a view gives its WHOLE underlying
      buffer, whatever its offset and length; anything else throws. */
  function ToArrayBuffer(x: JsValue): (r: Result<Bytes, JsError>)
    ensures r.Ok? <==> x.JsArrayBuffer? || x.JsView?
    ensures x.JsView? ==> r == Ok(x.buffer)
    ensures !(x.JsArrayBuffer? || x.JsView?) ==> r == Err(Error("Expected ArrayBuffer or view"))
  {
    match x
    case JsArrayBuffer(b) => Ok(b)
    case JsView(buffer, _, _) => Ok(buffer)
    case _ => Err(Error("Expected ArrayBuffer or view"))
  }

  /** What `bufferToBase64url` returns or throws. */
  function Base64urlOf(x: JsValue): Result<string, JsError> {
    var b :- ToArrayBuffer(x);
    Ok(UrlEncode(b))
  }

  /** What `base64urlToBuffer` returns (the buffer's contents) or throws:
      only a string has `replace`, and `atob` rejects what is not base64. */
  function Base64urlDecoded(x: JsValue): Result<Bytes, JsError> {
    if !x.JsString? then Err(TypeError)
    else match UrlDecode(x.s)
      case None => Err(InvalidCharacterError)
      case Some(b) => Ok(b)
  }

  /** `bufferToBase64url`: collect the binary string octet by octet, `btoa`
      it, switch to the URL alphabet and drop the padding. */
  method BufferToBase64url(buf: JsValue) returns (r: Result<string, JsError>)
    ensures r == Base64urlOf(buf)
  {
    var ab := ToArrayBuffer(buf);
    if ab.Err? {
      return Err(ab.error);
    }
    var bytes := ab.value;
    var binary := "";
    for i := 0 to |bytes|
      invariant binary == BinaryString(bytes[..i])
    {
      assert bytes[..i + 1] == bytes[..i] + [bytes[i]];
      binary := binary + [bytes[i] as char];
    }
    assert bytes[..|bytes|] == bytes;
    var b64 := Btoa(binary);
    r := Ok(StripTrailing(Replace(Replace(b64.value, '+', '-'), '/', '_'), '='));
  }

  /** `base64urlToBuffer`: switch back to the standard alphabet, restore the
      padding, `atob`, and copy the code units into a fresh byte array. */
  method Base64urlToBuffer(x: JsValue) returns (r: Result<Bytes, JsError>)
    ensures r == Base64urlDecoded(x)
  {
    if !x.JsString? {
      return Err(TypeError);
    }
    var base64 := Replace(Replace(x.s, '-', '+'), '_', '/');
    var pad := Repeat('=', PadCount(|base64|));
    var binary := Atob(base64 + pad);
    if binary.Err? {
      return Err(binary.error);
    }
    assert Base64urlDecoded(x) == Ok(CodeUnits(binary.value));
    var bytes := CopyCodeUnits(binary.value);
    return Ok(bytes);
  }

  /** `new Uint8Array(binary.length)` filled by the indexed loop
      `bytes[i] = binary.charCodeAt(i)`: each code unit, truncated to 8 bits
      as a `Uint8Array` store does. */
  method CopyCodeUnits(text: string) returns (b: Bytes)
    requires IsBinaryString(text)
    ensures b == CodeUnits(text)
  {
    var bytes := new byte[|text|](_ => 0);
    for i := 0 to |text|
      invariant forall k :: 0 <= k < i ==> bytes[k] == text[k] as int
    {
      bytes[i] := (text[i] as int) % 256;
    }
    assert bytes[..] == CodeUnits(text);
    return bytes[..];
  }

  // ---------------------------------------------------------------------
  // Preformatting the server's options
  // ---------------------------------------------------------------------

  /** `({...c, id: base64urlToBuffer(c.id)})` for one credential descriptor:
      reading `id` of anything but an object ends in a `TypeError`. */
  function DescriptorDecoded(c: JsValue): Result<JsValue, JsError> {
    if !c.JsObject? then Err(TypeError)
    else
      var id :- Base64urlDecoded(Prop(c.props, "id"));
      Ok(JsObject(c.props["id" := JsArrayBuffer(id)]))
  }

  /** `items.map(DescriptorDecoded)`: the first exception propagates,
      otherwise every descriptor is decoded, in order. */
  function DecodeEach(items: seq<JsValue>): (r: Result<seq<JsValue>, JsError>)
    ensures r.Ok? <==> forall i :: 0 <= i < |items| ==> DescriptorDecoded(items[i]).Ok?
    ensures r.Ok? ==> |r.value| == |items|
    ensures r.Ok? ==> forall i :: 0 <= i < |items| ==> r.value[i] == DescriptorDecoded(items[i]).value
  {
    if items == [] then Ok([])
    else
      var first :- DescriptorDecoded(items[0]);
      var rest :- DecodeEach(items[1..]);
      Ok([first] + rest)
  }

  /** `list.map(...)` on a credential list: only an array has `map`. */
  function DecodeDescriptors(list: JsValue): Result<JsValue, JsError> {
    if !list.JsArray? then Err(TypeError)
    else
      var items :- DecodeEach(list.items);
      Ok(JsArray(items))
  }

  /** `preformatCreateOptions` on an options object: the properties after it
      ran, and the exception that stopped it, if any. Every assignment made
      before an exception stays. Only `challenge`, `user` and
      `excludeCredentials` are ever written. */
  function CreatePreformatted(p: map<string, JsValue>): (r: (map<string, JsValue>, Option<JsError>))
    ensures forall k :: k !in {"challenge", "user", "excludeCredentials"} ==>
      (k in r.0 <==> k in p) && (k in p ==> r.0[k] == p[k])
  {
    match Base64urlDecoded(Prop(p, "challenge"))
    case Err(e) => (p, Some(e))
    case Ok(challenge) =>
      var p1 := p["challenge" := JsArrayBuffer(challenge)];
      var user := Prop(p1, "user");
      if !user.JsObject? then (p1, Some(TypeError))
      else match Base64urlDecoded(Prop(user.props, "id"))
        case Err(e) => (p1, Some(e))
        case Ok(id) =>
          var p2 := p1["user" := JsObject(user.props["id" := JsArrayBuffer(id)])];
          var exclude := Prop(p2, "excludeCredentials");
          if !Truthy(exclude) then (p2, None)
          else match DecodeDescriptors(exclude)
            case Err(e) => (p2, Some(e))
            case Ok(list) => (p2["excludeCredentials" := list], None)
  }

  /** `preformatGetOptions` on an options object: the properties after it
      ran, and the exception that stopped it, if any. Only `challenge` and
      `allowCredentials` are ever written. */
  function GetPreformatted(p: map<string, JsValue>): (r: (map<string, JsValue>, Option<JsError>))
    ensures forall k :: k !in {"challenge", "allowCredentials"} ==>
      (k in r.0 <==> k in p) && (k in p ==> r.0[k] == p[k])
  {
    match Base64urlDecoded(Prop(p, "challenge"))
    case Err(e) => (p, Some(e))
    case Ok(challenge) =>
      var p1 := p["challenge" := JsArrayBuffer(challenge)];
      var allow := Prop(p1, "allowCredentials");
      if !Truthy(allow) then (p1, None)
      else match DecodeDescriptors(allow)
        case Err(e) => (p1, Some(e))
        case Ok(list) => (p1["allowCredentials" := list], None)
  }

  /** The options object `res.json()` gives the script, which the
      preformatting functions overwrite property by property. */
  class Options {
    var props: map<string, JsValue>

    constructor (props: map<string, JsValue>)
      ensures this.props == props
    {
      this.props := props;
    }

    /** `preformatCreateOptions(opts)`; `err` is the exception it throws. */
    method PreformatCreateOptions() returns (err: Option<JsError>)
      modifies this
      ensures (props, err) == CreatePreformatted(old(props))
    {
      var challenge := Base64urlToBuffer(Prop(props, "challenge"));
      if challenge.Err? {
        return Some(challenge.error);
      }
      props := props["challenge" := JsArrayBuffer(challenge.value)];
      var user := Prop(props, "user");
      if !user.JsObject? {
        return Some(TypeError);
      }
      var id := Base64urlToBuffer(Prop(user.props, "id"));
      if id.Err? {
        return Some(id.error);
      }
      props := props["user" := JsObject(user.props["id" := JsArrayBuffer(id.value)])];
      var exclude := Prop(props, "excludeCredentials");
      if Truthy(exclude) {
        var list := DecodeDescriptors(exclude);
        if list.Err? {
          return Some(list.error);
        }
        props := props["excludeCredentials" := list.value];
      }
      return None;
    }

    /** `preformatGetOptions(opts)`; `err` is the exception it throws. */
    method PreformatGetOptions() returns (err: Option<JsError>)
      modifies this
      ensures (props, err) == GetPreformatted(old(props))
    {
      var challenge := Base64urlToBuffer(Prop(props, "challenge"));
      if challenge.Err? {
        return Some(challenge.error);
      }
      props := props["challenge" := JsArrayBuffer(challenge.value)];
      var allow := Prop(props, "allowCredentials");
      if Truthy(allow) {
        var list := DecodeDescriptors(allow);
        if list.Err? {
          return Some(list.error);
        }
        props := props["allowCredentials" := list.value];
      }
      return None;
    }
  }

  // ---------------------------------------------------------------------
  // Serialising the authenticator's credential
  // ---------------------------------------------------------------------

  /** The parts of a `PublicKeyCredential` from `navigator.credentials.create`
      that `serializeAttestation` reads. `transports` is what
      `response.getTransports()` returns, `None` when that is not a function;
      `extensions` likewise for `getClientExtensionResults()`. */
  datatype Attestation = Attestation(
    id: JsValue, rawId: JsValue, credentialType: JsValue,
    clientDataJSON: JsValue, attestationObject: JsValue,
    transports: Option<JsValue>, extensions: Option<JsValue>)

  /** The parts of a `PublicKeyCredential` from `navigator.credentials.get`
      that `serializeAssertion` reads. */
  datatype Assertion = Assertion(
    id: JsValue, rawId: JsValue, credentialType: JsValue,
    clientDataJSON: JsValue, authenticatorData: JsValue, signature: JsValue,
    userHandle: JsValue, extensions: Option<JsValue>)

  /** `getClientExtensionResults()` when it is a function, else `{}`. */
  function ExtensionResults(extensions: Option<JsValue>): JsValue {
    match extensions
    case Some(e) => e
    case None => JsObject(map[])
  }

  /** The `response` object `serializeAttestation` builds; a `transports` of
      `undefined` is a property `JSON.stringify` leaves out, here `None`. */
  datatype AttestationResponseJson = AttestationResponseJson(
    clientDataJSON: string, attestationObject: string, transports: Option<JsValue>)

  /** The object `serializeAttestation` returns. */
  datatype AttestationJson = AttestationJson(
    id: JsValue, rawId: string, credentialType: JsValue,
    response: AttestationResponseJson, clientExtensionResults: JsValue)

  /** The `response` object `serializeAssertion` builds; a `userHandle` of
      `null` is `None`. */
  datatype AssertionResponseJson = AssertionResponseJson(
    clientDataJSON: string, authenticatorData: string, signature: string,
    userHandle: Option<string>)

  /** The object `serializeAssertion` returns. */
  datatype AssertionJson = AssertionJson(
    id: JsValue, rawId: string, credentialType: JsValue,
    response: AssertionResponseJson, clientExtensionResults: JsValue)

  /** `userHandle ? bufferToBase64url(userHandle) : null`. */
  function UserHandleField(h: JsValue): Result<Option<string>, JsError> {
    if Truthy(h) then
      var s :- Base64urlOf(h);
      Ok(Some(s))
    else Ok(None)
  }

  /** `serializeAttestation`. */
  function SerializeAttestation(a: Attestation): Result<AttestationJson, JsError> {
    var rawId :- Base64urlOf(a.rawId);
    var clientData :- Base64urlOf(a.clientDataJSON);
    var attestationObject :- Base64urlOf(a.attestationObject);
    Ok(AttestationJson(
      a.id, rawId, a.credentialType,
      AttestationResponseJson(clientData, attestationObject, a.transports),
      ExtensionResults(a.extensions)))
  }

  /** `serializeAssertion`. */
  function SerializeAssertion(a: Assertion): Result<AssertionJson, JsError> {
    var rawId :- Base64urlOf(a.rawId);
    var clientData :- Base64urlOf(a.clientDataJSON);
    var authenticatorData :- Base64urlOf(a.authenticatorData);
    var signature :- Base64urlOf(a.signature);
    var userHandle :- UserHandleField(a.userHandle);
    Ok(AssertionJson(
      a.id, rawId, a.credentialType,
      AssertionResponseJson(clientData, authenticatorData, signature, userHandle),
      ExtensionResults(a.extensions)))
  }

  // ---------------------------------------------------------------------
  // Properties
  // ---------------------------------------------------------------------

  /** `base64urlToBuffer(bufferToBase64url(buf))` holds the octets of
      `toArrayBuffer(buf)`, and the text uses the URL alphabet only, with no
      `+`, `/` or `=`. For a view that is its whole underlying buffer. */
  lemma ClientRoundTrip(buf: JsValue)
    requires buf.JsArrayBuffer? || buf.JsView?
    ensures Base64urlOf(buf).Ok?
    ensures var s := Base64urlOf(buf).value;
      && (forall k :: 0 <= k < |s| ==> IsUrlAlphabetChar(s[k]) && s[k] !in {'+', '/', '='})
      && Base64urlDecoded(JsString(s)) == Ok(ToArrayBuffer(buf).value)
  {
    var b := ToArrayBuffer(buf).value;
    UrlEncodeAlphabet(b);
    UrlRoundTrip(b);
  }

  /** A field `bufferToBase64url` produced decodes back to the octets of
      `toArrayBuffer` of its argument. */
  lemma FieldRoundTrip(x: JsValue)
    requires Base64urlOf(x).Ok?
    ensures Base64urlDecoded(JsString(Base64urlOf(x).value)) == ToArrayBuffer(x)
  {
    UrlRoundTrip(ToArrayBuffer(x).value);
  }

  /** Octets the server encodes with the same unpadded base64url decode back
      to themselves in the browser. */
  lemma DecodesServerEncoding(b: Bytes)
    ensures Base64urlDecoded(JsString(UrlEncode(b))) == Ok(b)
  {
    UrlRoundTrip(b);
  }

  /** The descriptors the server built from ids it encoded decode, in
      order, to the same descriptors with the ids as buffers. */
  lemma DecodeEncodedDescriptors(descriptors: seq<map<string, JsValue>>, ids: seq<Bytes>)
    requires |descriptors| == |ids|
    requires forall i :: 0 <= i < |ids| ==> Prop(descriptors[i], "id") == JsString(UrlEncode(ids[i]))
    ensures DecodeDescriptors(JsArray(seq(|descriptors|, i requires 0 <= i < |descriptors| => JsObject(descriptors[i]))))
         == Ok(JsArray(seq(|ids|, i requires 0 <= i < |ids| => JsObject(descriptors[i]["id" := JsArrayBuffer(ids[i])]))))
  {
    var items := seq(|descriptors|, i requires 0 <= i < |descriptors| => JsObject(descriptors[i]));
    var expected := seq(|ids|, i requires 0 <= i < |ids| => JsObject(descriptors[i]["id" := JsArrayBuffer(ids[i])]));
    forall i | 0 <= i < |ids| ensures DescriptorDecoded(items[i]) == Ok(expected[i]) {
      DecodesServerEncoding(ids[i]);
    }
    var r := DecodeEach(items);
    assert r.Ok? && |r.value| == |expected|;
    assert r.value == expected;
  }

  /** For options the server built from a challenge, a user handle and
      descriptors whose ids it encoded, `preformatCreateOptions` succeeds
      and puts back exactly those octets, keeping every other property of
      the options, of the user and of each descriptor and the number of
      descriptors. */
  lemma PreformatCreateOfServerOptions(
    p: map<string, JsValue>, challenge: Bytes, user: map<string, JsValue>, handle: Bytes,
    descriptors: seq<map<string, JsValue>>, ids: seq<Bytes>)
    requires |descriptors| == |ids|
    requires Prop(p, "challenge") == JsString(UrlEncode(challenge))
    requires Prop(p, "user") == JsObject(user) && Prop(user, "id") == JsString(UrlEncode(handle))
    requires Prop(p, "excludeCredentials") == JsArray(seq(|descriptors|, i requires 0 <= i < |descriptors| => JsObject(descriptors[i])))
    requires forall i :: 0 <= i < |ids| ==> Prop(descriptors[i], "id") == JsString(UrlEncode(ids[i]))
    ensures CreatePreformatted(p) ==
      (p["challenge" := JsArrayBuffer(challenge)]
        ["user" := JsObject(user["id" := JsArrayBuffer(handle)])]
        ["excludeCredentials" := JsArray(seq(|ids|, i requires 0 <= i < |ids| =>
           JsObject(descriptors[i]["id" := JsArrayBuffer(ids[i])])))],
       None)
  {
    DecodesServerEncoding(challenge);
    DecodesServerEncoding(handle);
    DecodeEncodedDescriptors(descriptors, ids);
    CreatePreformattedAllDecode(p, challenge, user, handle, Prop(p, "excludeCredentials"),
      JsArray(seq(|ids|, i requires 0 <= i < |ids| => JsObject(descriptors[i]["id" := JsArrayBuffer(ids[i])]))));
  }

  /** `preformatCreateOptions` when the challenge, the user id and a truthy
      `excludeCredentials` all decode: each is replaced by what it decodes to. */
  lemma CreatePreformattedAllDecode(
    p: map<string, JsValue>, challenge: Bytes, user: map<string, JsValue>, handle: Bytes,
    exclude: JsValue, list: JsValue)
    requires Base64urlDecoded(Prop(p, "challenge")) == Ok(challenge)
    requires Prop(p, "user") == JsObject(user) && Base64urlDecoded(Prop(user, "id")) == Ok(handle)
    requires Prop(p, "excludeCredentials") == exclude && Truthy(exclude)
    requires DecodeDescriptors(exclude) == Ok(list)
    ensures CreatePreformatted(p) ==
      (p["challenge" := JsArrayBuffer(challenge)]["user" := JsObject(user["id" := JsArrayBuffer(handle)])]["excludeCredentials" := list], None)
  {
    var p1 := p["challenge" := JsArrayBuffer(challenge)];
    assert Prop(p1, "user") == JsObject(user);
    var p2 := p1["user" := JsObject(user["id" := JsArrayBuffer(handle)])];
    assert Prop(p2, "excludeCredentials") == exclude;
  }

  /** For options the server built from a challenge and descriptors whose
      ids it encoded, `preformatGetOptions` succeeds and puts back exactly
      those octets, one descriptor per id and in the same order, keeping
      every other property. */
  lemma PreformatGetOfServerOptions(
    p: map<string, JsValue>, challenge: Bytes, descriptors: seq<map<string, JsValue>>, ids: seq<Bytes>)
    requires |descriptors| == |ids|
    requires Prop(p, "challenge") == JsString(UrlEncode(challenge))
    requires Prop(p, "allowCredentials") == JsArray(seq(|descriptors|, i requires 0 <= i < |descriptors| => JsObject(descriptors[i])))
    requires forall i :: 0 <= i < |ids| ==> Prop(descriptors[i], "id") == JsString(UrlEncode(ids[i]))
    ensures GetPreformatted(p) ==
      (p["challenge" := JsArrayBuffer(challenge)]
        ["allowCredentials" := JsArray(seq(|ids|, i requires 0 <= i < |ids| =>
           JsObject(descriptors[i]["id" := JsArrayBuffer(ids[i])])))],
       None)
  {
    DecodesServerEncoding(challenge);
    DecodeEncodedDescriptors(descriptors, ids);
    GetPreformattedAllDecode(p, challenge, Prop(p, "allowCredentials"),
      JsArray(seq(|ids|, i requires 0 <= i < |ids| => JsObject(descriptors[i]["id" := JsArrayBuffer(ids[i])]))));
  }

  /** `preformatGetOptions` when the challenge and a truthy
      `allowCredentials` decode: each is replaced by what it decodes to. */
  lemma GetPreformattedAllDecode(p: map<string, JsValue>, challenge: Bytes, allow: JsValue, list: JsValue)
    requires Base64urlDecoded(Prop(p, "challenge")) == Ok(challenge)
    requires Prop(p, "allowCredentials") == allow && Truthy(allow)
    requires DecodeDescriptors(allow) == Ok(list)
    ensures GetPreformatted(p) == (p["challenge" := JsArrayBuffer(challenge)]["allowCredentials" := list], None)
  {
    var p1 := p["challenge" := JsArrayBuffer(challenge)];
    assert Prop(p1, "allowCredentials") == allow;
  }

  /** `serializeAssertion` succeeds exactly when the id, client data,
      authenticator data and signature are buffers and the user handle is a
      buffer or falsy. Then every encoded field decodes back to its octets,
      and `userHandle` is `null` exactly when the authenticator gave a falsy
      handle. */
  lemma SerializedAssertionDecodes(a: Assertion)
    ensures SerializeAssertion(a).Ok? <==>
      && ToArrayBuffer(a.rawId).Ok? && ToArrayBuffer(a.clientDataJSON).Ok?
      && ToArrayBuffer(a.authenticatorData).Ok? && ToArrayBuffer(a.signature).Ok?
      && (Truthy(a.userHandle) ==> ToArrayBuffer(a.userHandle).Ok?)
    ensures SerializeAssertion(a).Ok? ==>
      var o := SerializeAssertion(a).value;
      && o.id == a.id && o.credentialType == a.credentialType
      && Base64urlDecoded(JsString(o.rawId)) == ToArrayBuffer(a.rawId)
      && Base64urlDecoded(JsString(o.response.clientDataJSON)) == ToArrayBuffer(a.clientDataJSON)
      && Base64urlDecoded(JsString(o.response.authenticatorData)) == ToArrayBuffer(a.authenticatorData)
      && Base64urlDecoded(JsString(o.response.signature)) == ToArrayBuffer(a.signature)
      && (o.response.userHandle.None? <==> !Truthy(a.userHandle))
      && (Truthy(a.userHandle) ==>
            Base64urlDecoded(JsString(o.response.userHandle.value)) == ToArrayBuffer(a.userHandle))
  {
    if SerializeAssertion(a).Ok? {
      FieldRoundTrip(a.rawId);
      FieldRoundTrip(a.clientDataJSON);
      FieldRoundTrip(a.authenticatorData);
      FieldRoundTrip(a.signature);
      if Truthy(a.userHandle) {
        FieldRoundTrip(a.userHandle);
      }
    }
  }

  /** `serializeAttestation` succeeds exactly when the id, client data and
      attestation object are buffers; then each decodes back to its octets,
      and `transports` is present exactly when `getTransports` is a
      function. */
  lemma SerializedAttestationDecodes(a: Attestation)
    ensures SerializeAttestation(a).Ok? <==>
      ToArrayBuffer(a.rawId).Ok? && ToArrayBuffer(a.clientDataJSON).Ok? && ToArrayBuffer(a.attestationObject).Ok?
    ensures SerializeAttestation(a).Ok? ==>
      var o := SerializeAttestation(a).value;
      && o.id == a.id && o.credentialType == a.credentialType
      && Base64urlDecoded(JsString(o.rawId)) == ToArrayBuffer(a.rawId)
      && Base64urlDecoded(JsString(o.response.clientDataJSON)) == ToArrayBuffer(a.clientDataJSON)
      && Base64urlDecoded(JsString(o.response.attestationObject)) == ToArrayBuffer(a.attestationObject)
      && o.response.transports == a.transports
  {
    if SerializeAttestation(a).Ok? {
      FieldRoundTrip(a.rawId);
      FieldRoundTrip(a.clientDataJSON);
      FieldRoundTrip(a.attestationObject);
    }
  }
}
