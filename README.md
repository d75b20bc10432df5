# aws-vault-test, modelled in Dafny

The repository has two pieces with decision logic. This project models both.

- **The secrets adapter** (`AwsSecretsService`, Java/Spring). It lists secret names. It reads one secret's
  text with a three-way fallback: the string payload, then the binary payload decoded as UTF-8, then a
  literal placeholder. It reads every secret, recording `"[ACCESS DENIED]"` for any read that throws. It
  builds create requests that carry the description only when one is given. It owns the SDK client's
  lifecycle. Module `SecretsService` (`secrets_service.dfy`).
- **The migration script** (`migrate_secrets_v2.py`). It lists the secrets under an AWS prefix across
  all pages. It classifies each payload as decoded JSON, `{'value': s}`, `{'binary': b}` or `None`. It
  derives a Vault path, then writes the secret or only counts it in a dry run. It exits with status 1
  when any secret failed. Module `SecretsMigration` (`migrate_secrets.dfy`), with the Python `str`
  operations in `PyStrings` (`py_strings.dfy`) and Python values and truthiness in `PyValues`
  (`py_values.dfy`).

The SDK, boto3, `json.loads`, UTF-8 decoding and the Vault write are inputs to the model. In
`SecretsService` they form the `Backend` record: the list answer, a get-value answer per name, a create
answer per request, and the SDK's decoder. In `SecretsMigration` they form the `Externals` record: the
pages the paginator yields and the error it may raise after them, the get-value answer per name,
`json.loads` as a partial function, and `write_secret` as a boolean outcome. The imperative parts keep
their imperative form:
- `getAllSecrets` is a loop that fills a map.
- `list_secrets` is a pair of nested loops that append to a list.
- `migrate_secrets` is a loop over two counters.
- `initializeClient` and `close` set and test the adapter's client field.

Each of these is proved against a specification function. The lemmas state the properties.

Three behaviours of the adapter's code that the model keeps:
- `close()` is not idempotent. The client field is never cleared, so every call after initialisation
  calls the client's `close` again. `AwsSecretsService.Close` states that.
- Only `SecretsManagerException` is wrapped in a `RuntimeException`. Any other SDK exception passes
  through unwrapped (`Thrown.Propagated`). `getAllSecrets` catches both when they come from a per-name read; an exception of the listing call escapes it.
- `SdkBytes.asUtf8String` throws `UncheckedIOException` on malformed UTF-8. That is no
  `SecretsManagerException`, so `getSecretByName` lets it escape unwrapped and `getAllSecrets` records
  the placeholder for that name.

The script likewise catches only botocore's `ClientError`. Any other botocore exception (a
`BotoCoreError` such as a failed connection or missing credentials) escapes `list_secrets` or
`get_secret_value` and ends the run with status 1, leaving the remaining secrets unprocessed.

## Model

| member | source | states |
|---|---|---|
| `SecretsService.Rethrow` | src/main/java/com/example/aws_vault_test/service/AwsSecretsService.java:55-57 | a backend failure is never swallowed: the thrown exception's cause is the failure; only a service exception is wrapped, with the message `context: cause` |
| `SecretsService.SecretNames` | src/main/java/com/example/aws_vault_test/service/AwsSecretsService.java:52-54 | the mapped list has the entries' length and its i-th element is the i-th entry's name |
| `SecretsService.GetAllSecretNames` | src/main/java/com/example/aws_vault_test/service/AwsSecretsService.java:49-58 | succeeds exactly when the list call does, returning every listed name in order; a failed list call is rethrown with it as cause; it is wrapped, with the `Failed to list secrets` message, exactly when it is a service exception |
| `SecretsService.GetSecretByName` | src/main/java/com/example/aws_vault_test/service/AwsSecretsService.java:64-82 | the string payload whenever present (whatever the binary), else the UTF-8 decoding of the binary, else `"No secret data found"`; fails exactly when the get call fails (with that failure as cause, wrapped with the `Failed to retrieve secret 'name'` message exactly when it is a service exception) or the only payload is malformed UTF-8 (the decoder's exception, unwrapped) |
| `SecretsService.AllSecretsKeys` | src/main/java/com/example/aws_vault_test/service/AwsSecretsService.java:87-100 | when listing succeeds, get-all succeeds and its key set is exactly the set of listed names |
| `SecretsService.AllSecretsValues` | src/main/java/com/example/aws_vault_test/service/AwsSecretsService.java:91-97 | each value is the name's read when it succeeds and `"[ACCESS DENIED]"` when it throws anything |
| `SecretsService.AllSecretsFailsOnlyWithListing` | src/main/java/com/example/aws_vault_test/service/AwsSecretsService.java:88-88 | get-all fails exactly when listing fails, and then with the listing's own exception (it is outside the per-name try) |
| `SecretsService.UndecodableSecretDenied` | src/main/java/com/example/aws_vault_test/service/AwsSecretsService.java:72-74 | a listed secret whose only payload is malformed UTF-8 makes its read throw unwrapped, and get-all records `"[ACCESS DENIED]"` for it |
| `SecretsService.AllSecretsOneEntryPerName` | src/main/java/com/example/aws_vault_test/service/AwsSecretsService.java:87-100 | with unique names, the map has exactly one entry per listed secret |
| `SecretsService.AllSecretsAllDenied` | src/main/java/com/example/aws_vault_test/service/AwsSecretsService.java:94-97 | when every read throws (a failed get call or an undecodable payload), get-all still succeeds and every entry is the placeholder |
| `SecretsService.AwsSecretsService.GetAllSecrets` | src/main/java/com/example/aws_vault_test/service/AwsSecretsService.java:87-100 | the loop that fills the map yields exactly the get-all specification `AllSecrets` of the client's backend |
| `SecretsService.CreateRequestFor` | src/main/java/com/example/aws_vault_test/service/AwsSecretsService.java:111-117 | name and value always set; description set iff non-null and non-empty, and then unchanged |
| `SecretsService.CreateSecret` | src/main/java/com/example/aws_vault_test/service/AwsSecretsService.java:108-127 | returns the backend's ARN unchanged; fails exactly when the backend rejects the request, with that rejection as cause; a service exception is wrapped with the `Failed to create secret 'name'` message, any other SDK exception escapes unwrapped |
| `SecretsService.EmptyDescriptionIsOmitted` | src/main/java/com/example/aws_vault_test/service/AwsSecretsService.java:115-117 | an empty description and a null one give identical requests and identical outcomes |
| `SecretsService.AwsSecretsService.InitializeClient` | src/main/java/com/example/aws_vault_test/service/AwsSecretsService.java:38-44 | installs a fresh, never-closed client over the given backend; the configured region is untouched |
| `SecretsService.SecretsManagerClient.Close` | src/main/java/com/example/aws_vault_test/service/AwsSecretsService.java:132-132 | each call is one teardown of the client |
| `SecretsService.AwsSecretsService.Close` | src/main/java/com/example/aws_vault_test/service/AwsSecretsService.java:130-135 | no teardown when no client was initialised; otherwise exactly one teardown per call |
| `PyStrings.LStripSlash` | script/migrate_secrets_v2.py:182-182 | the result is a suffix of the input, everything cut off is `/`, and it does not start with `/` |
| `PyStrings.RStripSlash` | script/migrate_secrets_v2.py:185-185 | the result is a prefix of the input, everything cut off is `/`, and it does not end with `/` |
| `PyStrings.StripSlash` | script/migrate_secrets_v2.py:185-185 | the result is an infix of the input with only `/` cut from either side, and it neither starts nor ends with `/` |
| `PyStrings.StripSlashClean` | script/migrate_secrets_v2.py:185-185 | the strip leaves a string that neither starts nor ends with `/` unchanged |
| `SecretsMigration.FilterKeepsExactly` | script/migrate_secrets_v2.py:23-25 | a secret is kept iff it was listed and the prefix is None, empty, or a prefix of its name |
| `SecretsMigration.FilterConcat` | script/migrate_secrets_v2.py:21-25 | filtering consecutive pages gives the filtered pages one after another: page order is kept |
| `SecretsMigration.FilterWithoutPrefix` | script/migrate_secrets_v2.py:23-23 | with no prefix or an empty one, every listed secret is kept, in order |
| `SecretsMigration.ListSecrets` | script/migrate_secrets_v2.py:15-30 | the nested loops return the filtered concatenation of all pages, exit status 1 when the paginator raises a `ClientError`, or any other exception it raises, escaping |
| `SecretsMigration.GetSecretValue` | script/migrate_secrets_v2.py:32-48 | a decodable string payload is returned decoded, an undecodable one as `{'value': s}`, a binary-only one as `{'binary': b}`, a `ClientError` as None; any other exception of the call escapes, and so does the `KeyError` of a response with neither key |
| `SecretsMigration.FalsyExactly` | script/migrate_secrets_v2.py:37-48 | the retrieved data is falsy exactly after a `ClientError` or when the string is JSON for a falsy value; the fallback dicts are always truthy |
| `SecretsMigration.RelativePath` | script/migrate_secrets_v2.py:180-182 | with a non-empty matching AWS prefix the name is prefix + `/`s + path and the path has no leading `/`; otherwise the path is the name |
| `SecretsMigration.VaultPath` | script/migrate_secrets_v2.py:184-185 | without a Vault prefix the path is the relative path; with one, it is `prefix/relative` with only `/` trimmed at both ends, so it never starts or ends with `/` |
| `SecretsMigration.VaultPathJoins` | script/migrate_secrets_v2.py:184-185 | under a clean Vault prefix a clean relative path lands at exactly `prefix/relative` |
| `SecretsMigration.VaultPathRoundTrip` | script/migrate_secrets_v2.py:180-185 | the name `awsPrefix/rest` maps back to `rest` (or `vaultPrefix/rest`) |
| `SecretsMigration.PrefixMatchesAsText` | script/migrate_secrets_v2.py:181-182 | the AWS prefix is matched textually: any name `prefix + rest` with `rest` not starting with `/` maps to `rest`, so `production-db` under `prod` becomes `uction-db` |
| `SecretsMigration.DryRunExactly` | script/migrate_secrets_v2.py:144-144 | dry run holds iff `DRY_RUN` is `true` in any mix of cases; it is off when unset |
| `SecretsMigration.CrashPersists` | script/migrate_secrets_v2.py:167-172 | an exception escaping the retrieval ends the loop: later secrets change nothing |
| `SecretsMigration.CountersBalance` | script/migrate_secrets_v2.py:164-200 | every processed secret increments exactly one counter: `successful + failed` is the number processed |
| `SecretsMigration.DryRunWritesNothing` | script/migrate_secrets_v2.py:191-193 | in a dry run the loop never calls `write_secret` |
| `SecretsMigration.DryRunCounts` | script/migrate_secrets_v2.py:172-193 | in a dry run `successful` is the number of secrets with truthy data and `failed` the rest |
| `SecretsMigration.WritesOnlyUsableData` | script/migrate_secrets_v2.py:174-177 | falsy data is never written: every write carries truthy data |
| `SecretsMigration.ExpectedWritesCount` | script/migrate_secrets_v2.py:172-197 | there is one expected write per secret with truthy data |
| `SecretsMigration.EveryRetrievedSecretWritten` | script/migrate_secrets_v2.py:172-200 | outside a dry run the writes are exactly the expected ones: one per secret with truthy data, in listing order, that data at the secret's Vault path |
| `SecretsMigration.SuccessfulAreAcceptedWrites` | script/migrate_secrets_v2.py:194-200 | outside a dry run `successful` is the number of writes Vault accepted and `failed` is every other secret |
| `SecretsMigration.UnusableDataCountsAsFailed` | script/migrate_secrets_v2.py:174-177 | in any mode, `failed` is at least the number of secrets without truthy data |
| `SecretsMigration.MigrateSecrets` | script/migrate_secrets_v2.py:136-210 | the script's loop computes exactly the specification `Migration` of its environment and externals |
| `SecretsMigration.ExitDecision` | script/migrate_secrets_v2.py:159-210 | exit status is non-zero iff listing failed, an exception escaped, or a completed run has `failed > 0`; a completed run counted every listed secret once; an empty listing returns with no counts, no writes and status 0 |
| `SecretsMigration.DryRunNeverWrites` | script/migrate_secrets_v2.py:191-193 | a dry run of the whole script writes nothing to Vault |
| `SecretsMigration.EmptyObjectSecretFails` | script/migrate_secrets_v2.py:172-177 | a lone secret whose JSON is `{}` counts as failed, is not written, and fails the run |

## Left out

- The AWS SDK and boto3 calls, credential and region resolution, and pagination internals. They are
  foreign code, so each call is an input answer. The paginator is the pages it yields, then an optional error.
- The adapter reads a configurable region (`AwsSecretsService.java:28`) but builds its client with a
  hard-coded one (`AwsSecretsService.java:40`). This is configuration, not decision logic, so the model does not carry it.
- The backend's state is a fixed oracle. A create does not change what later reads answer, and a
  duplicate name is simply a rejection the oracle gives.
- `SecretsService.AwsSecretsService.GetAllSecrets` requires an initialised client. Spring runs
  `initializeClient` before any call. What a closed SDK client does when called is SDK behaviour, so it is not modelled.
- Java `null` is modelled only for the description and the two payloads. Null names or values are not.
- `getMessage()` texts are abstract strings. Logging is not modelled.
- `VaultClient` is not part of this model: the OIDC token fetch, the JWT login, the headers and the HTTP
  POST. `write_secret` is an oracle on (path, data) that answers the same way for the same call. Its
  "not authenticated" branch is inside that oracle. The `sys.exit(1)` calls in the client's setup and
  login come before the listing, so the model starts after authentication.
- `json.loads` and the SDK's UTF-8 decoding are partial function inputs; the decoder's failure carries
  only the exception's message. JSON floats are `real`, so NaN and
  infinities are not modelled.
- `PyStrings.Lower` lower-cases ASCII letters only. No other character lower-cases to a letter of `true`, so
  the dry-run test is unaffected.
- `print` output is not modelled. `sys.exit(n)` and an uncaught exception become the run's exit status (1).
- `TestController.java` (one-line pass-throughs and a `"Secret created: "` prefix),
  `AwsVaultTestApplication.java` (bootstrap and a print loop) and `aws-secrets-exporter.py` (an
  unfiltered copy of `list_secrets` whose Vault writer is commented out) are not part of this model.
- Concurrent request handling is not modelled. The adapter keeps no per-request state.
