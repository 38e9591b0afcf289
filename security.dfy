/**
 * `get_api_key`: the API-key dependency. A key is accepted when it is
 * non-empty and equals one of the two configured keys; every rejection is
 * re-raised by the surrounding handler as 403 "API key validation error".
 */
module Security {
  import opened Wrappers

  /** An `HTTPException`: its status code and detail text. */
  datatype HttpError = HttpError(statusCode: int, detail: string)

  const Forbidden := 403
  const ApiKeyName := "X-API-Key"
  const CouldNotValidate := "Could not validate API key"
  const ValidationError := "API key validation error"

  /** `API_KEYS`: the two configured keys, an unset variable reading as "". */
  function ApiKeys(apiKey1: Option<string>, apiKey2: Option<string>): (keys: seq<string>)
    ensures |keys| == 2
    ensures apiKey1.None? ==> keys[0] == ""
    ensures apiKey2.None? ==> keys[1] == ""
    ensures apiKey1.Some? ==> keys[0] == apiKey1.value
    ensures apiKey2.Some? ==> keys[1] == apiKey2.value
  {
    [apiKey1.GetOr(""), apiKey2.GetOr("")]
  }

  /** The body of the `try`: the membership and non-empty test and the inner exception. */
  function CheckApiKey(apiKey: Option<string>, keys: seq<string>): (r: Result<string, HttpError>)
    ensures r.Success? <==> apiKey.Some? && apiKey.value in keys && apiKey.value != ""
    ensures r.Success? ==> r.value == apiKey.value
    ensures r.Failure? ==> r.error == HttpError(Forbidden, CouldNotValidate)
  {
    if apiKey.Some? && apiKey.value in keys && apiKey.value != "" then Success(apiKey.value)
    else Failure(HttpError(Forbidden, CouldNotValidate))
  }

  /**
   * `get_api_key(api_key)`, the header value being `None` when the header is missing:
   * any exception of the check, the inner 403 included, becomes the outer 403.
   */
  function GetApiKey(apiKey: Option<string>, keys: seq<string>): (r: Result<string, HttpError>)
    ensures r.Success? <==> apiKey.Some? && apiKey.value != "" && apiKey.value in keys
    ensures r.Success? ==> r.value == apiKey.value
    ensures r.Failure? ==> r.error == HttpError(Forbidden, ValidationError)
  {
    match CheckApiKey(apiKey, keys)
    case Success(key) => Success(key)
    case Failure(_) => Failure(HttpError(Forbidden, ValidationError))
  }

  /** An empty or missing key is refused even when a configured key is unset and so equals "". */
  lemma EmptyKeyRejected(apiKey1: Option<string>, apiKey2: Option<string>)
    ensures GetApiKey(Some(""), ApiKeys(apiKey1, apiKey2)).Failure?
    ensures GetApiKey(None, ApiKeys(apiKey1, apiKey2)).Failure?
  {
  }

  /** With one key unset, only the other key opens the door. */
  lemma OneKeyConfigured(key: string, apiKey: string)
    requires key != ""
    ensures GetApiKey(Some(apiKey), ApiKeys(Some(key), None)).Success? <==> apiKey == key
    ensures GetApiKey(Some(apiKey), ApiKeys(None, Some(key))).Success? <==> apiKey == key
  {
    var keys1, keys2 := ApiKeys(Some(key), None), ApiKeys(None, Some(key));
    assert apiKey in keys1 <==> apiKey == key || apiKey == "";
    assert apiKey in keys2 <==> apiKey == key || apiKey == "";
  }

  /** With both keys set and non-empty, exactly those two keys are accepted. */
  lemma TwoKeysConfigured(key1: string, key2: string, apiKey: string)
    requires key1 != "" && key2 != ""
    ensures GetApiKey(Some(apiKey), ApiKeys(Some(key1), Some(key2))).Success? <==> apiKey == key1 || apiKey == key2
  {
    var keys := ApiKeys(Some(key1), Some(key2));
    assert apiKey in keys <==> apiKey == key1 || apiKey == key2;
  }

  /** The inner detail never reaches the client: every refusal carries the outer detail. */
  lemma InnerDetailNeverSurfaces(apiKey: Option<string>, keys: seq<string>)
    ensures GetApiKey(apiKey, keys).Failure? ==> GetApiKey(apiKey, keys).error.detail != CouldNotValidate
  {
  }
}
