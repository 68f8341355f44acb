/** `secrets_handler`: the credential bundle in `secrets.json`. The file is a
    field of the store: `None` when it does not exist, otherwise what it
    holds. Saving replaces the whole object and reports failures in its
    reply; reading a missing file gives an empty object. */
module SecretsHandler {
  import opened Wrappers

  const SecretsFile: string := "secrets.json"
  const SavedMessage: string := "Secrets saved successfully"

  /** The JSON values a secrets object holds. */
  datatype SecretValue = Text(text: string) | Number(number: int) | Flag(flag: bool)

  /** `SecretsPayload`: the fifteen fields of the bundle with their types. */
  datatype SecretsPayload = SecretsPayload(
    clientId: string,
    clientSecret: string,
    authorizationUrl: string,
    tokenUrl: string,
    accessToken: string,
    refreshToken: string,
    expiresIn: int,
    id: int,
    tenantUrl: string,
    customClient: bool,
    tokenType: string,
    idToken: string,
    scope: string,
    jti: string,
    expiresAfter: int)

  /** The JSON keys of the payload, in declaration order. */
  const PayloadKeys: seq<string> := [
    "client_id", "client_secret", "authorization_url", "token_url", "access_token",
    "refresh_token", "expires_in", "id", "tenantUrl", "customClient",
    "token_type", "id_token", "scope", "jti", "expires_after"]

  /** The keys are pairwise distinct. */
  lemma KeysDistinct()
    ensures forall i, j :: 0 <= i < j < |PayloadKeys| ==> PayloadKeys[i] != PayloadKeys[j]
  {
  }

  /** The value of the payload field whose JSON key is `PayloadKeys[i]`. */
  function FieldAt(p: SecretsPayload, i: int): SecretValue
    requires 0 <= i < 15
  {
    if i == 0 then Text(p.clientId)
    else if i == 1 then Text(p.clientSecret)
    else if i == 2 then Text(p.authorizationUrl)
    else if i == 3 then Text(p.tokenUrl)
    else if i == 4 then Text(p.accessToken)
    else if i == 5 then Text(p.refreshToken)
    else if i == 6 then Number(p.expiresIn)
    else if i == 7 then Number(p.id)
    else if i == 8 then Text(p.tenantUrl)
    else if i == 9 then Flag(p.customClient)
    else if i == 10 then Text(p.tokenType)
    else if i == 11 then Text(p.idToken)
    else if i == 12 then Text(p.scope)
    else if i == 13 then Text(p.jti)
    else Number(p.expiresAfter)
  }

  /** `payload.dict()`: one entry per field, under the field's JSON key. */
  function AsDict(p: SecretsPayload): (d: map<string, SecretValue>)
    ensures forall k :: k in d <==> k in PayloadKeys
  {
    KeysDistinct();
    map i | 0 <= i < 15 :: PayloadKeys[i] := FieldAt(p, i)
  }

  /** Each key holds the value of its own field. */
  lemma DictEntry(p: SecretsPayload, i: int)
    requires 0 <= i < 15
    ensures AsDict(p)[PayloadKeys[i]] == FieldAt(p, i)
  {
    KeysDistinct();
  }

  /** No field is lost in the dict: payloads with the same dict are equal. */
  lemma AsDictInjective(p: SecretsPayload, q: SecretsPayload)
    requires AsDict(p) == AsDict(q)
    ensures p == q
  {
    forall i | 0 <= i < 15 ensures FieldAt(p, i) == FieldAt(q, i) {
      DictEntry(p, i);
      DictEntry(q, i);
    }
    assert FieldAt(p, 0) == FieldAt(q, 0) && FieldAt(p, 1) == FieldAt(q, 1) && FieldAt(p, 2) == FieldAt(q, 2);
    assert FieldAt(p, 3) == FieldAt(q, 3) && FieldAt(p, 4) == FieldAt(q, 4) && FieldAt(p, 5) == FieldAt(q, 5);
    assert FieldAt(p, 6) == FieldAt(q, 6) && FieldAt(p, 7) == FieldAt(q, 7) && FieldAt(p, 8) == FieldAt(q, 8);
    assert FieldAt(p, 9) == FieldAt(q, 9) && FieldAt(p, 10) == FieldAt(q, 10) && FieldAt(p, 11) == FieldAt(q, 11);
    assert FieldAt(p, 12) == FieldAt(q, 12) && FieldAt(p, 13) == FieldAt(q, 13) && FieldAt(p, 14) == FieldAt(q, 14);
  }

  /** What `secrets.json` holds: a JSON object, or the incomplete text a
      save leaves when it fails after opening (and so truncating) the file. */
  datatype Content = JsonObject(entries: map<string, SecretValue>) | Truncated

  /** How `save_secrets` can fail: opening the file for writing raises, or
      writing, flushing or closing it raises after the open truncated it. */
  datatype SaveFailure = OpenFailed(message: string) | WriteFailed(message: string)

  /** `json.load` on an incomplete JSON text raises `JSONDecodeError`. */
  datatype ReadError = JsonDecodeError

  /** What `get_secrets` returns or raises for a file state: the object,
      `{}` when there is no file, the decode error for a truncated one. */
  function Stored(file: Option<Content>): (r: Result<map<string, SecretValue>, ReadError>)
    ensures file.None? ==> r == Success(map[])
    ensures r.Failure? <==> file == Some(Truncated)
    ensures file.Some? && file.value.JsonObject? ==> r == Success(file.value.entries)
  {
    if file.None? then Success(map[])
    else if file.value.Truncated? then Failure(JsonDecodeError)
    else Success(file.value.entries)
  }

  /** The dict `save_secrets` returns: a message on success, the error text on
      failure, never both. */
  function SaveReply(failure: Option<SaveFailure>): (reply: map<string, string>)
    ensures |reply| == 1
    ensures ("message" in reply) <==> failure.None?
    ensures ("error" in reply) <==> failure.Some?
    ensures failure.None? ==> reply["message"] == SavedMessage
    ensures failure.Some? ==> reply["error"] == failure.value.message
  {
    if failure.None? then map["message" := SavedMessage] else map["error" := failure.value.message]
  }

  /** The file state after `save_secrets`. */
  function AfterSave(file: Option<Content>, data: map<string, SecretValue>, failure: Option<SaveFailure>)
    : (after: Option<Content>)
    ensures failure.None? ==> Stored(after) == Success(data)
    ensures failure.Some? && failure.value.OpenFailed? ==> after == file
    ensures failure.Some? && failure.value.WriteFailed? ==> Stored(after).Failure?
  {
    if failure.None? then Some(JsonObject(data))
    else if failure.value.OpenFailed? then file
    else Some(Truncated)
  }

  class SecretsStore {
    var file: Option<Content>

    constructor (file: Option<Content>)
      ensures this.file == file
    {
      this.file := file;
    }

    /** `save_secrets`. `failure` is the error the file system raises, if it
        does, and where. Nothing is raised: the error comes back in the reply. */
    method SaveSecrets(data: map<string, SecretValue>, failure: Option<SaveFailure>) returns (reply: map<string, string>)
      modifies this
      ensures file == AfterSave(old(file), data, failure)
      ensures reply == SaveReply(failure)
    {
      if failure.Some? && failure.value.OpenFailed? {
        return map["error" := failure.value.message];
      }
      file := Some(Truncated);
      if failure.Some? {
        return map["error" := failure.value.message];
      }
      file := Some(JsonObject(data));
      return map["message" := SavedMessage];
    }

    /** `get_secrets`: the stored object, `{}` when there is no file, and the
        decode error of `json.load` when the file holds no complete object. */
    method GetSecrets() returns (r: Result<map<string, SecretValue>, ReadError>)
      ensures r == Stored(file)
      ensures file.None? ==> r == Success(map[])
    {
      if file.None? {
        return Success(map[]);
      }
      if file.value.Truncated? {
        return Failure(JsonDecodeError);
      }
      return Success(file.value.entries);
    }
  }

  /** A list of keys without repeats has as many distinct members as entries. */
  lemma {:induction false} DistinctKeys(keys: seq<string>)
    requires forall i, j :: 0 <= i < j < |keys| ==> keys[i] != keys[j]
    ensures |set k | k in keys| == |keys|
  {
    if keys != [] {
      var rest := keys[1..];
      assert forall i, j :: 0 <= i < j < |rest| ==> rest[i] != rest[j] by {
        forall i, j | 0 <= i < j < |rest| ensures rest[i] != rest[j] {
          assert rest[i] == keys[i + 1] && rest[j] == keys[j + 1];
        }
      }
      DistinctKeys(rest);
      assert keys[0] !in rest by {
        forall j | 0 <= j < |rest| ensures rest[j] != keys[0] {
          assert rest[j] == keys[j + 1];
        }
      }
      assert (set k | k in keys) == {keys[0]} + (set k | k in rest);
    }
  }

  /** A map whose keys are exactly the entries of a list without repeats
      has as many entries as the list. */
  lemma KeyCount(d: map<string, SecretValue>, keys: seq<string>)
    requires forall i, j :: 0 <= i < j < |keys| ==> keys[i] != keys[j]
    requires forall k :: k in d <==> k in keys
    ensures |d| == |keys|
  {
    DistinctKeys(keys);
    assert d.Keys == set k | k in keys;
  }

  /** The schema's fifteen keys are distinct, so a payload's dict has fifteen entries. */
  lemma FifteenFields(p: SecretsPayload)
    ensures |AsDict(p)| == 15
  {
    KeysDistinct();
    KeyCount(AsDict(p), PayloadKeys);
  }

  /** Saving and reading back gives the saved object. */
  lemma SaveThenGet(file: Option<Content>, data: map<string, SecretValue>)
    ensures Stored(AfterSave(file, data, None)) == Success(data)
  {
  }

  /** A failed save reads back as before when the open failed, and as the
      decode error when the failure came after the open truncated the file. */
  lemma FailedSaveThenGet(file: Option<Content>, data: map<string, SecretValue>, failure: SaveFailure)
    ensures failure.OpenFailed? ==> Stored(AfterSave(file, data, Some(failure))) == Stored(file)
    ensures failure.WriteFailed? ==> Stored(AfterSave(file, data, Some(failure))) == Failure(JsonDecodeError)
  {
  }

  /** A saved payload reads back as the payload's dict, all fifteen fields,
      and that dict is the dict of no other payload. */
  lemma PayloadRoundTrip(file: Option<Content>, p: SecretsPayload)
    ensures Stored(AfterSave(file, AsDict(p), None)) == Success(AsDict(p))
    ensures |Stored(AfterSave(file, AsDict(p), None)).value| == 15
    ensures forall q :: Success(AsDict(q)) == Stored(AfterSave(file, AsDict(p), None)) ==> q == p
  {
    FifteenFields(p);
    forall q | Success(AsDict(q)) == Stored(AfterSave(file, AsDict(p), None)) ensures q == p {
      AsDictInjective(q, p);
    }
  }

  /** Saving replaces the whole object: no key of the old content that the
      new data lacks survives. */
  lemma SaveReplacesWholeObject(file: Option<Content>, data: map<string, SecretValue>, key: string)
    requires file.Some? && file.value.JsonObject? && key in file.value.entries && key !in data
    ensures key !in Stored(AfterSave(file, data, None)).value
  {
  }

  /** Reading a missing file gives the empty object, not an error. */
  lemma MissingFileReadsEmpty()
    ensures Stored(None) == Success(map[])
  {
  }
}
