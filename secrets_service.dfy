/**
 * The Spring adapter over the cloud secrets backend (`AwsSecretsService`).
 *
 * The SDK client is an abstract oracle: a `Backend` value says what each
 * backend call answers.  The adapter's decisions -- which payload becomes the
 * secret's text, which exceptions are wrapped, which per-name failures become
 * a placeholder, which fields go into a create request -- are modelled exactly.
 */
module SecretsService {
  import opened Wrappers

  /** One entry of the backend's list response. */
  datatype SecretListEntry = SecretListEntry(name: string, arn: string)

  /** The backend's answer to a get-value call; either payload may be null. */
  datatype ValueResponse = ValueResponse(secretString: Option<string>, secretBinary: Option<Bytes>)

  /** The create request the adapter builds; `description` is null when not set. */
  datatype CreateRequest = CreateRequest(name: string, secretString: string, description: Option<string>)

  /**
   * An exception raised inside the adapter's `try` blocks: the service's own
   * exception (`SecretsManagerException`), any other SDK exception (client-side
   * errors, for one), or the `UncheckedIOException` the SDK's UTF-8 decoding
   * throws on malformed input.  Only the first is caught and wrapped.
   */
  datatype BackendFailure =
    | ServiceException(message: string)
    | OtherException(message: string)
    | DecodingException(message: string)

  /**
   * What an adapter operation throws: a `RuntimeException` wrapping a service
   * exception, or an SDK exception that passes through unchanged.
   */
  datatype Thrown = Wrapped(message: string, cause: BackendFailure) | Propagated(cause: BackendFailure)

  /**
   * The backend as the adapter sees it through its client: the answer to the
   * list call, to a get-value call for each name, to a create call for each
   * request, and the SDK's UTF-8 decoding of a binary payload, which fails
   * (with the exception's message) on malformed input.
   */
  datatype Backend = Backend(
    listing: Result<seq<SecretListEntry>, BackendFailure>,
    getValue: string -> Result<ValueResponse, BackendFailure>,
    create: CreateRequest -> Result<string, BackendFailure>,
    asUtf8String: Bytes -> Result<string, string>)

  /** Returned by get-by-name when the response carries neither payload. */
  const NO_SECRET_DATA := "No secret data found"

  /** Recorded by get-all for a name whose read threw. */
  const ACCESS_DENIED := "[ACCESS DENIED]"

  /** The try/catch around every backend call: only a service exception is wrapped. */
  function Rethrow(context: string, f: BackendFailure): (t: Thrown)
    ensures t.cause == f
    ensures t.Wrapped? <==> f.ServiceException?
    ensures t.Wrapped? ==> t.message == context + ": " + f.message
  {
    match f
    case ServiceException(m) => Wrapped(context + ": " + m, f)
    case OtherException(_) => Propagated(f)
    case DecodingException(_) => Propagated(f)
  }

  /** The names of the listed entries, as the stream `map(SecretListEntry::name)` yields them. */
  function SecretNames(entries: seq<SecretListEntry>): (names: seq<string>)
    ensures |names| == |entries|
    ensures forall i :: 0 <= i < |entries| ==> names[i] == entries[i].name
  {
    if entries == [] then [] else [entries[0].name] + SecretNames(entries[1..])
  }

  /** `getAllSecretNames`: every listed name, in order; a failed list call is rethrown. */
  function GetAllSecretNames(b: Backend): (r: Result<seq<string>, Thrown>)
    ensures r.Success? <==> b.listing.Success?
    ensures r.Success? ==> |r.value| == |b.listing.value|
    ensures r.Success? ==> forall i :: 0 <= i < |r.value| ==> r.value[i] == b.listing.value[i].name
    ensures r.Failure? ==> r.error.cause == b.listing.error
    ensures r.Failure? ==> (r.error.Wrapped? <==> r.error.cause.ServiceException?)
    ensures r.Failure? && r.error.Wrapped? ==>
      r.error.message == "Failed to list secrets: " + r.error.cause.message
  {
    match b.listing
    case Success(entries) => Success(SecretNames(entries))
    case Failure(f) => Failure(Rethrow("Failed to list secrets", f))
  }

  /** The response holds only a binary payload, and the SDK cannot decode it as UTF-8. */
  predicate Undecodable(b: Backend, response: ValueResponse)
  {
    response.secretString.None? && response.secretBinary.Some? && b.asUtf8String(response.secretBinary.value).Failure?
  }

  /**
   * `getSecretByName`: the string payload when there is one (whatever the
   * binary payload), else the binary payload decoded as UTF-8, else the
   * placeholder.  A failed get-value call is rethrown, never turned into a
   * value; a decoding failure escapes unwrapped, since it is no service exception.
   */
  function GetSecretByName(b: Backend, secretName: string): (r: Result<string, Thrown>)
    ensures r.Success? <==> b.getValue(secretName).Success? && !Undecodable(b, b.getValue(secretName).value)
    ensures b.getValue(secretName).Failure? ==> r.Failure? && r.error.cause == b.getValue(secretName).error
    ensures r.Failure? ==> (r.error.Wrapped? <==> r.error.cause.ServiceException?)
    ensures r.Failure? && r.error.Wrapped? ==>
      r.error.message == "Failed to retrieve secret '" + secretName + "': " + r.error.cause.message
    ensures b.getValue(secretName).Success? && b.getValue(secretName).value.secretString.Some? ==>
      r.value == b.getValue(secretName).value.secretString.value
    ensures (b.getValue(secretName).Success? && b.getValue(secretName).value.secretString.None?
             && b.getValue(secretName).value.secretBinary.Some?) ==>
      var decoded := b.asUtf8String(b.getValue(secretName).value.secretBinary.value);
      (decoded.Success? ==> r == Success(decoded.value))
      && (decoded.Failure? ==> r == Failure(Propagated(DecodingException(decoded.error))))
    ensures (b.getValue(secretName).Success? && b.getValue(secretName).value.secretString.None?
             && b.getValue(secretName).value.secretBinary.None?) ==>
      r.value == NO_SECRET_DATA
  {
    match b.getValue(secretName)
    case Failure(f) => Failure(Rethrow("Failed to retrieve secret '" + secretName + "'", f))
    case Success(response) =>
      if response.secretString.Some? then Success(response.secretString.value)
      else if response.secretBinary.Some? then
        match b.asUtf8String(response.secretBinary.value)
        case Success(text) => Success(text)
        case Failure(message) => Failure(Rethrow("Failed to retrieve secret '" + secretName + "'", DecodingException(message)))
      else Success(NO_SECRET_DATA)
  }

  /** The value get-all records for one name: the read's text, or the placeholder if it threw. */
  function ReadOrDenied(read: Result<string, Thrown>): string
  {
    match read
    case Success(v) => v
    case Failure(_) => ACCESS_DENIED
  }

  /** The map get-all holds once it has handled the given names. */
  ghost function ReadAll(b: Backend, names: seq<string>): map<string, string>
  {
    map n | n in names :: ReadOrDenied(GetSecretByName(b, n))
  }

  /** Handling one more name puts (or overwrites) exactly that name's entry. */
  lemma ReadAllStep(b: Backend, names: seq<string>, name: string)
    ensures ReadAll(b, names + [name]) == ReadAll(b, names)[name := ReadOrDenied(GetSecretByName(b, name))]
  {
  }

  /**
   * What `getAllSecrets` computes: one entry per listed name, holding that
   * name's read or the placeholder.  The listing's own failure is not caught.
   */
  ghost function AllSecrets(b: Backend): Result<map<string, string>, Thrown>
  {
    match GetAllSecretNames(b)
    case Failure(t) => Failure(t)
    case Success(names) => Success(ReadAll(b, names))
  }

  /** Every listed name, and no other, is a key of the get-all map. */
  lemma AllSecretsKeys(b: Backend)
    requires b.listing.Success?
    ensures AllSecrets(b).Success?
    ensures forall e :: e in b.listing.value ==> e.name in AllSecrets(b).value
    ensures forall n :: n in AllSecrets(b).value ==> exists e :: e in b.listing.value && e.name == n
  {
  }

  /**
   * Each value of the get-all map is the read of its name when that read
   * succeeds and the placeholder when it throws, whatever it throws.
   */
  lemma AllSecretsValues(b: Backend, n: string)
    requires AllSecrets(b).Success? && n in AllSecrets(b).value
    ensures GetSecretByName(b, n).Success? ==> AllSecrets(b).value[n] == GetSecretByName(b, n).value
    ensures GetSecretByName(b, n).Failure? ==> AllSecrets(b).value[n] == ACCESS_DENIED
  {
  }

  /** Get-all fails exactly when the listing fails, and then with the listing's own exception. */
  lemma AllSecretsFailsOnlyWithListing(b: Backend)
    ensures AllSecrets(b).Failure? <==> b.listing.Failure?
    ensures AllSecrets(b).Failure? ==> AllSecrets(b).error == Rethrow("Failed to list secrets", b.listing.error)
  {
  }

  /**
   * A secret whose only payload is malformed UTF-8 makes its read throw, so
   * get-all records the placeholder for it, as for a denied read.
   */
  lemma UndecodableSecretDenied(b: Backend, n: string)
    requires b.listing.Success? && exists e :: e in b.listing.value && e.name == n
    requires b.getValue(n).Success? && Undecodable(b, b.getValue(n).value)
    ensures GetSecretByName(b, n).Failure? && GetSecretByName(b, n).error.Propagated?
    ensures AllSecrets(b).Success? && n in AllSecrets(b).value && AllSecrets(b).value[n] == ACCESS_DENIED
  {
  }

  /** The number of distinct elements of a sequence with no repeats is its length. */
  lemma {:induction false} DistinctCardinality(s: seq<string>)
    requires forall i, j :: 0 <= i < j < |s| ==> s[i] != s[j]
    ensures |set x | x in s| == |s|
  {
    if s != [] {
      DistinctCardinality(s[1..]);
      assert (set x | x in s) == {s[0]} + (set x | x in s[1..]);
      assert s[0] !in (set x | x in s[1..]);
    }
  }

  /**
   * With the backend's names unique, get-all has exactly one entry per listed
   * secret, even when every single read is denied.
   */
  lemma AllSecretsOneEntryPerName(b: Backend)
    requires b.listing.Success?
    requires forall i, j :: 0 <= i < j < |b.listing.value| ==> b.listing.value[i].name != b.listing.value[j].name
    ensures AllSecrets(b).Success?
    ensures |AllSecrets(b).value| == |b.listing.value|
  {
    var names := GetAllSecretNames(b).value;
    DistinctCardinality(names);
    assert AllSecrets(b).value.Keys == set x | x in names;
  }

  /** When every read throws, every entry of the get-all map is the placeholder. */
  lemma AllSecretsAllDenied(b: Backend)
    requires b.listing.Success?
    requires forall e :: e in b.listing.value ==> GetSecretByName(b, e.name).Failure?
    ensures AllSecrets(b).Success?
    ensures forall n :: n in AllSecrets(b).value ==> AllSecrets(b).value[n] == ACCESS_DENIED
  {
  }

  /**
   * The request `createSecret` builds: name and value always, the description
   * only when it is non-null and non-empty.
   */
  function CreateRequestFor(secretName: string, secretValue: string, description: Option<string>): (req: CreateRequest)
    ensures req.name == secretName && req.secretString == secretValue
    ensures req.description.Some? <==> description.Some? && description.value != ""
    ensures req.description.Some? ==> req.description == description
  {
    if description.Some? && description.value != "" then
      CreateRequest(secretName, secretValue, description)
    else
      CreateRequest(secretName, secretValue, None)
  }

  /** `createSecret`: the backend's ARN unchanged, or the backend's failure rethrown. */
  function CreateSecret(b: Backend, secretName: string, secretValue: string, description: Option<string>): (r: Result<string, Thrown>)
    ensures r.Success? <==> b.create(CreateRequestFor(secretName, secretValue, description)).Success?
    ensures r.Success? ==> r.value == b.create(CreateRequestFor(secretName, secretValue, description)).value
    ensures r.Failure? ==> r.error.cause == b.create(CreateRequestFor(secretName, secretValue, description)).error
    ensures r.Failure? ==> (r.error.Wrapped? <==> r.error.cause.ServiceException?)
    ensures r.Failure? && r.error.Wrapped? ==>
      r.error.message == "Failed to create secret '" + secretName + "': " + r.error.cause.message
  {
    match b.create(CreateRequestFor(secretName, secretValue, description))
    case Success(arn) => Success(arn)
    case Failure(f) => Failure(Rethrow("Failed to create secret '" + secretName + "'", f))
  }

  /** An empty description and a null one give the same request, hence the same outcome. */
  lemma EmptyDescriptionIsOmitted(b: Backend, secretName: string, secretValue: string)
    ensures CreateRequestFor(secretName, secretValue, Some("")) == CreateRequestFor(secretName, secretValue, None)
    ensures CreateSecret(b, secretName, secretValue, Some("")) == CreateSecret(b, secretName, secretValue, None)
  {
  }

  /** The SDK client the adapter holds; `closeCount` counts its teardowns. */
  class SecretsManagerClient {
    const backend: Backend
    var closeCount: nat

    constructor (backend: Backend)
      ensures this.backend == backend && closeCount == 0
    {
      this.backend := backend;
      closeCount := 0;
    }

    /** The SDK's `close`: one teardown of the connection. */
    method Close()
      modifies this
      ensures closeCount == old(closeCount) + 1
    {
      closeCount := closeCount + 1;
    }
  }

  /** The adapter: a configured region and the client, null until initialised. */
  class AwsSecretsService {
    var region: string
    var secretsClient: SecretsManagerClient?

    /** The bean as Spring constructs it, before `initializeClient` runs. */
    constructor (region: string)
      ensures this.region == region && secretsClient == null
    {
      this.region := region;
      secretsClient := null;
    }

    /** `initializeClient`: a fresh client over the backend the ambient credentials reach. */
    method InitializeClient(backend: Backend)
      modifies this
      ensures fresh(secretsClient) && secretsClient.backend == backend && secretsClient.closeCount == 0
      ensures region == old(region)
    {
      secretsClient := new SecretsManagerClient(backend);
    }

    /**
     * `getAllSecrets`: fills a map in a loop over the listed names, recording
     * the placeholder for each name whose read throws.
     */
    method GetAllSecrets() returns (r: Result<map<string, string>, Thrown>)
      requires secretsClient != null
      ensures r == AllSecrets(secretsClient.backend)
    {
      var b := secretsClient.backend;
      var listed := GetAllSecretNames(b);
      if listed.Failure? {
        return Failure(listed.error);
      }
      var secretNames := listed.value;
      var secrets: map<string, string> := map[];
      assert ReadAll(b, secretNames[..0]) == map[];
      for i := 0 to |secretNames|
        invariant secrets == ReadAll(b, secretNames[..i])
      {
        var name := secretNames[i];
        var read := GetSecretByName(b, name);
        ReadAllStep(b, secretNames[..i], name);
        assert secretNames[..i + 1] == secretNames[..i] + [name];
        if read.Success? {
          secrets := secrets[name := read.value];
        } else {
          secrets := secrets[name := ACCESS_DENIED];
        }
      }
      assert secretNames[..|secretNames|] == secretNames;
      r := Success(secrets);
    }

    /** `close`: tears the client down when one was initialised, on every call. */
    method Close()
      modifies secretsClient
      ensures secretsClient != null ==> secretsClient.closeCount == old(secretsClient.closeCount) + 1
    {
      if secretsClient != null {
        secretsClient.Close();
      }
    }
  }
}
