/**
 * The migration script that copies secrets from the cloud secrets backend
 * into a Vault KV store (`migrate_secrets_v2.py`).
 *
 * Everything the script asks of the outside world -- the paginator, the
 * get-value call, `json.loads` and the Vault write -- is an input of the model
 * (`Externals`); the script's own logic is modelled exactly: the prefix filter,
 * the classification of a secret's payload, the Vault path, the counting loop,
 * the dry-run branch and the exit decision.
 */
module SecretsMigration {
  import opened Wrappers
  import opened PyStrings
  import opened PyValues

  /** One secret of a list page; the script only reads its name. */
  datatype SecretEntry = SecretEntry(name: string, arn: string)

  /**
   * What a boto3 call raises: a `ClientError` (the service's error answer),
   * which the script catches, or any other botocore exception (`BotoCoreError`:
   * no endpoint, a timeout, no credentials), which it does not.
   */
  datatype BotoError = ClientError(code: string) | BotoCoreError(kind: string)

  /** What the paginator does: it yields these pages, then raises `error` if there is one. */
  datatype PageStream = PageStream(pages: seq<seq<SecretEntry>>, error: Option<BotoError>)

  /** The answer to a get-value call; either key may be missing from the response. */
  datatype GetSecretValueResponse = GetSecretValueResponse(secretString: Option<string>, secretBinary: Option<Bytes>)

  /** The calls the script makes outside itself. */
  datatype Externals = Externals(
    listSecrets: PageStream,
    getSecretValue: string -> Result<GetSecretValueResponse, BotoError>,
    jsonLoads: string -> Option<PyValue>,   // None: `JSONDecodeError`
    writeSecret: (string, PyValue) -> bool)

  // ---------------------------------------------------------------------------
  // SecretsManager.list_secrets
  // ---------------------------------------------------------------------------

  /** What `list_secrets` ends with: the kept secrets, `sys.exit(code)`, or an exception it lets escape. */
  datatype Listing = Listed(secrets: seq<SecretEntry>) | Exited(code: int) | Escaped(exception: string)

  /** The filter of `list_secrets`: a falsy prefix keeps everything. */
  predicate Keeps(prefix: Option<string>, secret: SecretEntry)
  {
    prefix.None? || prefix.value == "" || StartsWith(secret.name, prefix.value)
  }

  /** The secrets of `secrets` that `prefix` keeps, in their order. */
  function Filter(secrets: seq<SecretEntry>, prefix: Option<string>): seq<SecretEntry>
    decreases |secrets|
  {
    if secrets == [] then []
    else
      var kept := Filter(secrets[..|secrets| - 1], prefix);
      if Keeps(prefix, secrets[|secrets| - 1]) then kept + [secrets[|secrets| - 1]] else kept
  }

  /** All pages, one after another. */
  function Flatten(pages: seq<seq<SecretEntry>>): seq<SecretEntry>
    decreases |pages|
  {
    if pages == [] then [] else Flatten(pages[..|pages| - 1]) + pages[|pages| - 1]
  }

  /** What `list_secrets` returns for a paginator and a prefix. */
  function ListingOf(stream: PageStream, prefix: Option<string>): Listing
  {
    match stream.error
    case None => Listed(Filter(Flatten(stream.pages), prefix))
    case Some(ClientError(_)) => Exited(1)
    case Some(BotoCoreError(kind)) => Escaped(kind)
  }

  /** Appending one secret appends it to the kept ones exactly when the prefix keeps it. */
  lemma FilterSnoc(secrets: seq<SecretEntry>, secret: SecretEntry, prefix: Option<string>)
    ensures Filter(secrets + [secret], prefix)
         == if Keeps(prefix, secret) then Filter(secrets, prefix) + [secret] else Filter(secrets, prefix)
  {
  }

  /** A secret is kept exactly when it was listed and the prefix lets it through. */
  lemma {:induction false} FilterKeepsExactly(secrets: seq<SecretEntry>, prefix: Option<string>, secret: SecretEntry)
    ensures secret in Filter(secrets, prefix) <==> secret in secrets && Keeps(prefix, secret)
    decreases |secrets|
  {
    if secrets != [] {
      var init := secrets[..|secrets| - 1];
      FilterKeepsExactly(init, prefix, secret);
      assert secrets == init + [secrets[|secrets| - 1]];
    }
  }

  /** Filtering the concatenation of two runs of pages keeps their order. */
  lemma {:induction false} FilterConcat(a: seq<SecretEntry>, b: seq<SecretEntry>, prefix: Option<string>)
    ensures Filter(a + b, prefix) == Filter(a, prefix) + Filter(b, prefix)
    decreases |b|
  {
    if b != [] {
      var init := b[..|b| - 1];
      var last := b[|b| - 1];
      FilterConcat(a, init, prefix);
      assert b == init + [last];
      assert a + b == (a + init) + [last];
      FilterSnoc(a + init, last, prefix);
      FilterSnoc(init, last, prefix);
      if Keeps(prefix, last) {
        calc {
          Filter(a + b, prefix);
          Filter(a + init, prefix) + [last];
          (Filter(a, prefix) + Filter(init, prefix)) + [last];
          Filter(a, prefix) + (Filter(init, prefix) + [last]);
          Filter(a, prefix) + Filter(b, prefix);
        }
      }
    } else {
      assert a + b == a;
    }
  }

  /** With no prefix, or an empty one, every listed secret is kept. */
  lemma {:induction false} FilterWithoutPrefix(secrets: seq<SecretEntry>, prefix: Option<string>)
    requires prefix.None? || prefix.value == ""
    ensures Filter(secrets, prefix) == secrets
    decreases |secrets|
  {
    if secrets != [] {
      FilterWithoutPrefix(secrets[..|secrets| - 1], prefix);
      assert secrets == secrets[..|secrets| - 1] + [secrets[|secrets| - 1]];
    }
  }

  /**
   * `list_secrets`: walks the pages, appending each secret the prefix keeps;
   * a `ClientError` from the paginator ends the script with status 1, and any
   * other exception escapes.
   */
  method ListSecrets(stream: PageStream, prefix: Option<string>) returns (r: Listing)
    ensures r == ListingOf(stream, prefix)
  {
    var secrets: seq<SecretEntry> := [];
    for p := 0 to |stream.pages|
      invariant secrets == Filter(Flatten(stream.pages[..p]), prefix)
    {
      var page := stream.pages[p];
      ghost var done := Flatten(stream.pages[..p]);
      assert done + page[..0] == done;
      for j := 0 to |page|
        invariant secrets == Filter(done + page[..j], prefix)
      {
        var secret := page[j];
        FilterNext(done, page, j, prefix);
        if prefix.Some? && prefix.value != "" && !StartsWith(secret.name, prefix.value) {
          continue;
        }
        secrets := secrets + [secret];
      }
      FlattenNext(stream.pages, p);
    }
    assert stream.pages[..|stream.pages|] == stream.pages;
    if stream.error.Some? {
      if stream.error.value.ClientError? {
        return Exited(1);
      }
      return Escaped(stream.error.value.kind);
    }
    return Listed(secrets);
  }

  /** One more secret of the current page, for the inner loop of `list_secrets`. */
  lemma FilterNext(done: seq<SecretEntry>, page: seq<SecretEntry>, j: nat, prefix: Option<string>)
    requires j < |page|
    ensures Filter(done + page[..j + 1], prefix)
         == if Keeps(prefix, page[j]) then Filter(done + page[..j], prefix) + [page[j]] else Filter(done + page[..j], prefix)
  {
    assert done + page[..j + 1] == (done + page[..j]) + [page[j]];
    FilterSnoc(done + page[..j], page[j], prefix);
  }

  /** One more page, for the outer loop of `list_secrets`. */
  lemma FlattenNext(pages: seq<seq<SecretEntry>>, p: nat)
    requires p < |pages|
    ensures Flatten(pages[..p + 1]) == Flatten(pages[..p]) + pages[p][..|pages[p]|]
  {
    assert pages[..p + 1][..p] == pages[..p];
    assert pages[p][..|pages[p]|] == pages[p];
  }

  // ---------------------------------------------------------------------------
  // SecretsManager.get_secret_value
  // ---------------------------------------------------------------------------

  /** What `get_secret_value` hands back: a value (None after a `ClientError`), or an exception it lets escape. */
  datatype Fetched = Returned(value: PyValue) | Raised(exception: string)

  /**
   * `get_secret_value`: a JSON string payload decoded, an undecodable one as
   * `{'value': s}`, a binary payload as `{'binary': b}`, and None on a
   * `ClientError`; any other botocore exception escapes, and a response with
   * neither key raises `KeyError`.
   */
  function GetSecretValue(response: Result<GetSecretValueResponse, BotoError>, jsonLoads: string -> Option<PyValue>): (r: Fetched)
    ensures response.Failure? && response.error.ClientError? ==> r == Returned(PyNone)
    ensures response.Failure? && response.error.BotoCoreError? ==> r == Raised(response.error.kind)
    ensures response.Success? && response.value.secretString.Some? ==>
      r.Returned? &&
      r.value == match jsonLoads(response.value.secretString.value)
                 case Some(decoded) => decoded
                 case None => PyDict(map["value" := PyStr(response.value.secretString.value)])
    ensures (response.Success? && response.value.secretString.None? && response.value.secretBinary.Some?) ==>
      r == Returned(PyDict(map["binary" := PyBytes(response.value.secretBinary.value)]))
    ensures r.Raised? <==>
      (response.Failure? && response.error.BotoCoreError?)
      || (response.Success? && response.value.secretString.None? && response.value.secretBinary.None?)
  {
    match response
    case Failure(ClientError(_)) => Returned(PyNone)
    case Failure(BotoCoreError(kind)) => Raised(kind)
    case Success(resp) =>
      if resp.secretString.Some? then
        match jsonLoads(resp.secretString.value)
        case Some(decoded) => Returned(decoded)
        case None => Returned(PyDict(map["value" := PyStr(resp.secretString.value)]))
      else if resp.secretBinary.Some? then
        Returned(PyDict(map["binary" := PyBytes(resp.secretBinary.value)]))
      else
        Raised("KeyError")
  }

  /**
   * A returned value is falsy -- so the migration counts the secret as failed
   * -- exactly after a `ClientError` or when the string payload is JSON for a
   * falsy value (`null`, `false`, `0`, `""`, `[]`, `{}`); an undecodable string
   * or a binary payload is always truthy.
   */
  lemma FalsyExactly(response: Result<GetSecretValueResponse, BotoError>, jsonLoads: string -> Option<PyValue>)
    requires GetSecretValue(response, jsonLoads).Returned?
    ensures !Truthy(GetSecretValue(response, jsonLoads).value) <==>
      response.Failure? ||
      (response.value.secretString.Some? && jsonLoads(response.value.secretString.value).Some?
       && !Truthy(jsonLoads(response.value.secretString.value).value))
  {
    if response.Success? && response.value.secretString.Some? && jsonLoads(response.value.secretString.value).None? {
      assert "value" in PyDict(map["value" := PyStr(response.value.secretString.value)]).entries;
    } else if response.Success? && response.value.secretString.None? {
      assert "binary" in PyDict(map["binary" := PyBytes(response.value.secretBinary.value)]).entries;
    }
  }

  // ---------------------------------------------------------------------------
  // Vault path derivation in migrate_secrets
  // ---------------------------------------------------------------------------

  /**
   * The secret's path relative to the AWS prefix: with a non-empty prefix that
   * the name starts with, the rest of the name without its leading `/`s;
   * otherwise the whole name.
   */
  function RelativePath(secretName: string, awsSecretPrefix: string): (path: string)
    ensures (awsSecretPrefix != "" && StartsWith(secretName, awsSecretPrefix)) ==>
      |awsSecretPrefix| + |path| <= |secretName|
      && secretName == awsSecretPrefix + secretName[|awsSecretPrefix|..|secretName| - |path|] + path
      && Slashes(secretName[|awsSecretPrefix|..|secretName| - |path|])
      && (path == [] || path[0] != '/')
    ensures !(awsSecretPrefix != "" && StartsWith(secretName, awsSecretPrefix)) ==> path == secretName
  {
    if awsSecretPrefix != "" && StartsWith(secretName, awsSecretPrefix) then
      var rest := secretName[|awsSecretPrefix|..];
      var path := LStripSlash(rest);
      assert rest[..|rest| - |path|] == secretName[|awsSecretPrefix|..|secretName| - |path|];
      assert secretName == awsSecretPrefix + rest;
      assert rest == rest[..|rest| - |path|] + path;
      path
    else
      secretName
  }

  /**
   * The Vault path of a secret: its relative path, joined under a non-empty
   * Vault prefix with `/` and then stripped of `/` at both ends.
   */
  function VaultPath(secretName: string, awsSecretPrefix: string, vaultPathPrefix: string): (path: string)
    ensures vaultPathPrefix == "" ==> path == RelativePath(secretName, awsSecretPrefix)
    ensures vaultPathPrefix != "" ==> path == [] || (path[0] != '/' && path[|path| - 1] != '/')
    ensures vaultPathPrefix != "" ==>
      var joined := vaultPathPrefix + "/" + RelativePath(secretName, awsSecretPrefix);
      var k := LeadingSlashes(joined);
      k + |path| <= |joined| && path == joined[k..k + |path|]
      && Slashes(joined[..k]) && Slashes(joined[k + |path|..])
  {
    var relative := RelativePath(secretName, awsSecretPrefix);
    if vaultPathPrefix != "" then StripSlash(vaultPathPrefix + "/" + relative) else relative
  }

  /**
   * Under a Vault prefix with no `/` at either end, a relative path with no
   * trailing `/` lands at exactly `prefix/relative`.
   */
  lemma VaultPathJoins(secretName: string, awsSecretPrefix: string, vaultPathPrefix: string)
    requires vaultPathPrefix != "" && vaultPathPrefix[0] != '/' && vaultPathPrefix[|vaultPathPrefix| - 1] != '/'
    requires RelativePath(secretName, awsSecretPrefix) != []
    requires var rel := RelativePath(secretName, awsSecretPrefix); rel[0] != '/' && rel[|rel| - 1] != '/'
    ensures VaultPath(secretName, awsSecretPrefix, vaultPathPrefix)
         == vaultPathPrefix + "/" + RelativePath(secretName, awsSecretPrefix)
  {
  }

  /**
   * A name built as `prefix/rest` maps back to `rest` (or to `vault/rest`
   * under a clean Vault prefix): path derivation undoes the naming scheme.
   */
  lemma VaultPathRoundTrip(awsSecretPrefix: string, rest: string, vaultPathPrefix: string)
    requires awsSecretPrefix != ""
    requires rest != [] && rest[0] != '/' && rest[|rest| - 1] != '/'
    requires vaultPathPrefix == "" || (vaultPathPrefix[0] != '/' && vaultPathPrefix[|vaultPathPrefix| - 1] != '/')
    ensures VaultPath(awsSecretPrefix + "/" + rest, awsSecretPrefix, vaultPathPrefix)
         == if vaultPathPrefix == "" then rest else vaultPathPrefix + "/" + rest
  {
    var name := awsSecretPrefix + "/" + rest;
    assert name[..|awsSecretPrefix|] == awsSecretPrefix;
    assert name[|awsSecretPrefix|..] == "/" + rest;
    assert ("/" + rest)[1..] == rest;
    assert LStripSlash(rest) == rest;
    assert RelativePath(name, awsSecretPrefix) == rest;
    if vaultPathPrefix != "" {
      VaultPathJoins(name, awsSecretPrefix, vaultPathPrefix);
    }
  }

  /**
   * The AWS prefix is matched as text, not at a `/` boundary: whatever follows
   * the prefix in the name, up to the first non-`/`, is cut off with it.
   */
  lemma PrefixMatchesAsText(awsSecretPrefix: string, rest: string)
    requires awsSecretPrefix != "" && (rest == [] || rest[0] != '/')
    ensures VaultPath(awsSecretPrefix + rest, awsSecretPrefix, "") == rest
    ensures VaultPath("production-db", "prod", "") == "uction-db"
  {
    var name := awsSecretPrefix + rest;
    assert name[..|awsSecretPrefix|] == awsSecretPrefix;
    assert name[|awsSecretPrefix|..] == rest;
    assert "production-db"[..4] == "prod";
    assert "production-db"[4..] == "uction-db";
  }

  // ---------------------------------------------------------------------------
  // migrate_secrets
  // ---------------------------------------------------------------------------

  /** The script's configuration, with the environment's defaults applied. */
  datatype Config = Config(awsSecretPrefix: string, vaultPathPrefix: string, dryRun: bool)

  /** `os.getenv(key, default)`. */
  function Getenv(env: map<string, string>, key: string, default: string): string
  {
    if key in env then env[key] else default
  }

  /** `value.lower() == 'true'`. */
  predicate IsDryRun(value: string)
  {
    Lower(value) == "true"
  }

  function ReadConfig(env: map<string, string>): Config
  {
    Config(Getenv(env, "AWS_SECRET_PREFIX", ""),
           Getenv(env, "VAULT_PATH_PREFIX", ""),
           IsDryRun(Getenv(env, "DRY_RUN", "false")))
  }

  lemma LowerCharIs(c: char, lower: char, upper: char)
    requires 'a' <= lower <= 'z' && upper as int == lower as int - 32
    ensures LowerChar(c) == lower <==> c == lower || c == upper
  {
  }

  /** Dry run is on exactly when `DRY_RUN` spells `true` in any mix of cases, and is off by default. */
  lemma DryRunExactly(env: map<string, string>)
    ensures "DRY_RUN" !in env ==> !ReadConfig(env).dryRun
    ensures "DRY_RUN" in env ==>
      var v := env["DRY_RUN"];
      ReadConfig(env).dryRun <==>
        |v| == 4 && (v[0] == 't' || v[0] == 'T') && (v[1] == 'r' || v[1] == 'R')
                 && (v[2] == 'u' || v[2] == 'U') && (v[3] == 'e' || v[3] == 'E')
  {
    if "DRY_RUN" !in env {
      assert Lower("false")[0] == 'f';
    } else {
      var v := env["DRY_RUN"];
      if |v| == 4 {
        LowerCharIs(v[0], 't', 'T');
        LowerCharIs(v[1], 'r', 'R');
        LowerCharIs(v[2], 'u', 'U');
        LowerCharIs(v[3], 'e', 'E');
        assert Lower(v) == "true" <==>
          Lower(v)[0] == 't' && Lower(v)[1] == 'r' && Lower(v)[2] == 'u' && Lower(v)[3] == 'e';
      }
    }
  }

  /** A call to `write_secret`. */
  datatype Write = Write(path: string, data: PyValue)

  /** The loop's state: the two counters, the writes made, and the exception that stopped it, if any. */
  datatype Progress = Progress(successful: nat, failed: nat, writes: seq<Write>, crash: Option<string>)

  /** One iteration of the loop, for one secret. */
  function Step(cfg: Config, ext: Externals, p: Progress, secret: SecretEntry): Progress
  {
    match GetSecretValue(ext.getSecretValue(secret.name), ext.jsonLoads)
    case Raised(e) => p.(crash := Some(e))
    case Returned(data) =>
      if !Truthy(data) then p.(failed := p.failed + 1)
      else
        var path := VaultPath(secret.name, cfg.awsSecretPrefix, cfg.vaultPathPrefix);
        if cfg.dryRun then p.(successful := p.successful + 1)
        else if ext.writeSecret(path, data) then
          p.(successful := p.successful + 1, writes := p.writes + [Write(path, data)])
        else
          p.(failed := p.failed + 1, writes := p.writes + [Write(path, data)])
  }

  /** The loop over `secrets`, stopping at the first exception. */
  function Process(cfg: Config, ext: Externals, secrets: seq<SecretEntry>): Progress
    decreases |secrets|
  {
    if secrets == [] then Progress(0, 0, [], None)
    else
      var before := Process(cfg, ext, secrets[..|secrets| - 1]);
      if before.crash.Some? then before else Step(cfg, ext, before, secrets[|secrets| - 1])
  }

  /** Whether the migration retrieves usable (truthy) data for a secret. */
  predicate Retrieved(ext: Externals, secret: SecretEntry)
  {
    var fetched := GetSecretValue(ext.getSecretValue(secret.name), ext.jsonLoads);
    fetched.Returned? && Truthy(fetched.value)
  }

  /** The number of secrets with usable data. */
  function CountRetrieved(ext: Externals, secrets: seq<SecretEntry>): nat
    decreases |secrets|
  {
    if secrets == [] then 0
    else CountRetrieved(ext, secrets[..|secrets| - 1]) + (if Retrieved(ext, secrets[|secrets| - 1]) then 1 else 0)
  }

  /** One more secret, for the loop of `migrate_secrets`. */
  lemma ProcessNext(cfg: Config, ext: Externals, secrets: seq<SecretEntry>, i: nat)
    requires i < |secrets| && Process(cfg, ext, secrets[..i]).crash.None?
    ensures Process(cfg, ext, secrets[..i + 1]) == Step(cfg, ext, Process(cfg, ext, secrets[..i]), secrets[i])
  {
    assert secrets[..i + 1][..i] == secrets[..i];
  }

  /** Once an exception has stopped the loop, later secrets change nothing. */
  lemma {:induction false} CrashPersists(cfg: Config, ext: Externals, secrets: seq<SecretEntry>, k: nat)
    requires k <= |secrets| && Process(cfg, ext, secrets[..k]).crash.Some?
    ensures Process(cfg, ext, secrets) == Process(cfg, ext, secrets[..k])
    decreases |secrets|
  {
    if k < |secrets| {
      var init := secrets[..|secrets| - 1];
      assert init[..k] == secrets[..k];
      CrashPersists(cfg, ext, init, k);
    } else {
      assert secrets[..k] == secrets;
    }
  }

  /** Every processed secret adds one to exactly one counter. */
  lemma {:induction false} CountersBalance(cfg: Config, ext: Externals, secrets: seq<SecretEntry>)
    requires Process(cfg, ext, secrets).crash.None?
    ensures Process(cfg, ext, secrets).successful + Process(cfg, ext, secrets).failed == |secrets|
    decreases |secrets|
  {
    if secrets != [] {
      CountersBalance(cfg, ext, secrets[..|secrets| - 1]);
    }
  }

  /** A dry run never calls `write_secret`. */
  lemma {:induction false} DryRunWritesNothing(cfg: Config, ext: Externals, secrets: seq<SecretEntry>)
    requires cfg.dryRun
    ensures Process(cfg, ext, secrets).writes == []
    decreases |secrets|
  {
    if secrets != [] {
      DryRunWritesNothing(cfg, ext, secrets[..|secrets| - 1]);
    }
  }

  /**
   * In a dry run every secret with usable data counts as successful and
   * every other one as failed.
   */
  lemma {:induction false} DryRunCounts(cfg: Config, ext: Externals, secrets: seq<SecretEntry>)
    requires cfg.dryRun && Process(cfg, ext, secrets).crash.None?
    ensures Process(cfg, ext, secrets).successful == CountRetrieved(ext, secrets)
    ensures Process(cfg, ext, secrets).failed == |secrets| - CountRetrieved(ext, secrets)
    decreases |secrets|
  {
    if secrets != [] {
      DryRunCounts(cfg, ext, secrets[..|secrets| - 1]);
    }
  }

  /** Only usable (truthy) data is ever passed to `write_secret`. */
  lemma {:induction false} WritesOnlyUsableData(cfg: Config, ext: Externals, secrets: seq<SecretEntry>)
    ensures forall k :: 0 <= k < |Process(cfg, ext, secrets).writes| ==> Truthy(Process(cfg, ext, secrets).writes[k].data)
    decreases |secrets|
  {
    if secrets != [] {
      WritesOnlyUsableData(cfg, ext, secrets[..|secrets| - 1]);
    }
  }

  /**
   * The writes a run outside dry run should make: for each secret with usable
   * data, in listing order, that data at the secret's Vault path.
   */
  function ExpectedWrites(cfg: Config, ext: Externals, secrets: seq<SecretEntry>): seq<Write>
    decreases |secrets|
  {
    if secrets == [] then []
    else
      var last := secrets[|secrets| - 1];
      var fetched := GetSecretValue(ext.getSecretValue(last.name), ext.jsonLoads);
      ExpectedWrites(cfg, ext, secrets[..|secrets| - 1])
      + if Retrieved(ext, last)
        then [Write(VaultPath(last.name, cfg.awsSecretPrefix, cfg.vaultPathPrefix), fetched.value)]
        else []
  }

  /** One expected write per secret with usable data. */
  lemma {:induction false} ExpectedWritesCount(cfg: Config, ext: Externals, secrets: seq<SecretEntry>)
    ensures |ExpectedWrites(cfg, ext, secrets)| == CountRetrieved(ext, secrets)
    decreases |secrets|
  {
    if secrets != [] {
      ExpectedWritesCount(cfg, ext, secrets[..|secrets| - 1]);
    }
  }

  /**
   * Outside a dry run, `write_secret` is called exactly for the secrets with
   * usable data, once each and in listing order, with that data at the
   * secret's Vault path.
   */
  lemma {:induction false} EveryRetrievedSecretWritten(cfg: Config, ext: Externals, secrets: seq<SecretEntry>)
    requires !cfg.dryRun && Process(cfg, ext, secrets).crash.None?
    ensures Process(cfg, ext, secrets).writes == ExpectedWrites(cfg, ext, secrets)
    ensures |Process(cfg, ext, secrets).writes| == CountRetrieved(ext, secrets)
    decreases |secrets|
  {
    if secrets != [] {
      EveryRetrievedSecretWritten(cfg, ext, secrets[..|secrets| - 1]);
    }
    ExpectedWritesCount(cfg, ext, secrets);
  }

  /** The number of writes that `write_secret` accepted. */
  function CountAccepted(ext: Externals, writes: seq<Write>): nat
    decreases |writes|
  {
    if writes == [] then 0
    else
      var last := writes[|writes| - 1];
      CountAccepted(ext, writes[..|writes| - 1]) + if ext.writeSecret(last.path, last.data) then 1 else 0
  }

  /**
   * Outside a dry run, `successful` counts the writes Vault accepted; every
   * other secret, whether its data was unusable or its write was refused, is
   * counted as failed.
   */
  lemma {:induction false} SuccessfulAreAcceptedWrites(cfg: Config, ext: Externals, secrets: seq<SecretEntry>)
    requires !cfg.dryRun && Process(cfg, ext, secrets).crash.None?
    ensures Process(cfg, ext, secrets).successful == CountAccepted(ext, Process(cfg, ext, secrets).writes)
    ensures Process(cfg, ext, secrets).failed == |secrets| - CountAccepted(ext, Process(cfg, ext, secrets).writes)
    decreases |secrets|
  {
    if secrets != [] {
      var init := secrets[..|secrets| - 1];
      SuccessfulAreAcceptedWrites(cfg, ext, init);
      var writes := Process(cfg, ext, secrets).writes;
      if writes != Process(cfg, ext, init).writes {
        assert writes[..|writes| - 1] == Process(cfg, ext, init).writes;
      }
    }
  }

  /**
   * In any mode, each secret without usable data is counted as failed: a run
   * that got through its secrets has at least that many failures.
   */
  lemma {:induction false} UnusableDataCountsAsFailed(cfg: Config, ext: Externals, secrets: seq<SecretEntry>)
    requires Process(cfg, ext, secrets).crash.None?
    ensures Process(cfg, ext, secrets).failed >= |secrets| - CountRetrieved(ext, secrets)
    decreases |secrets|
  {
    if secrets != [] {
      UnusableDataCountsAsFailed(cfg, ext, secrets[..|secrets| - 1]);
    }
  }

  /** How a run of the script ends. */
  datatype Ending = ListingFailed | NothingToMigrate | Crashed(exception: string) | Completed

  /** A whole run: how it ended, the counters, the writes made and the process exit status. */
  datatype MigrationRun = MigrationRun(ending: Ending, successful: nat, failed: nat, writes: seq<Write>, exitCode: int)

  /** What `migrate_secrets` does, given its environment and the outside world. */
  function Migration(env: map<string, string>, ext: Externals): MigrationRun
  {
    var cfg := ReadConfig(env);
    match ListingOf(ext.listSecrets, Some(cfg.awsSecretPrefix))
    case Exited(code) => MigrationRun(ListingFailed, 0, 0, [], code)
    case Escaped(e) => MigrationRun(Crashed(e), 0, 0, [], 1)
    case Listed(secrets) =>
      if secrets == [] then MigrationRun(NothingToMigrate, 0, 0, [], 0)
      else
        var p := Process(cfg, ext, secrets);
        if p.crash.Some? then MigrationRun(Crashed(p.crash.value), p.successful, p.failed, p.writes, 1)
        else MigrationRun(Completed, p.successful, p.failed, p.writes, if p.failed > 0 then 1 else 0)
  }

  /**
   * `migrate_secrets`: reads its configuration, lists the secrets under the
   * AWS prefix and, for each, retrieves it, derives its Vault path and writes
   * it (or only counts it in a dry run), then exits with status 1 if any failed.
   */
  method MigrateSecrets(env: map<string, string>, ext: Externals) returns (run: MigrationRun)
    ensures run == Migration(env, ext)
  {
    var awsSecretPrefix := Getenv(env, "AWS_SECRET_PREFIX", "");
    var vaultPathPrefix := Getenv(env, "VAULT_PATH_PREFIX", "");
    var dryRun := Lower(Getenv(env, "DRY_RUN", "false")) == "true";
    ghost var cfg := ReadConfig(env);
    assert cfg == Config(awsSecretPrefix, vaultPathPrefix, dryRun);

    var listing := ListSecrets(ext.listSecrets, Some(awsSecretPrefix));
    if listing.Exited? {
      return MigrationRun(ListingFailed, 0, 0, [], listing.code);
    }
    if listing.Escaped? {
      return MigrationRun(Crashed(listing.exception), 0, 0, [], 1);
    }
    var secrets := listing.secrets;
    if secrets == [] {
      return MigrationRun(NothingToMigrate, 0, 0, [], 0);
    }

    var successful: nat, failed: nat := 0, 0;
    var writes: seq<Write> := [];
    for i := 0 to |secrets|
      invariant Process(cfg, ext, secrets[..i]) == Progress(successful, failed, writes, None)
    {
      var secretName := secrets[i].name;
      ProcessNext(cfg, ext, secrets, i);
      var fetched := GetSecretValue(ext.getSecretValue(secretName), ext.jsonLoads);
      if fetched.Raised? {
        CrashPersists(cfg, ext, secrets, i + 1);
        return MigrationRun(Crashed(fetched.exception), successful, failed, writes, 1);
      }
      var secretData := fetched.value;
      if !Truthy(secretData) {
        failed := failed + 1;
        continue;
      }
      var vaultPath := VaultPath(secretName, awsSecretPrefix, vaultPathPrefix);
      if dryRun {
        successful := successful + 1;
      } else {
        var written := ext.writeSecret(vaultPath, secretData);
        writes := writes + [Write(vaultPath, secretData)];
        if written {
          successful := successful + 1;
        } else {
          failed := failed + 1;
        }
      }
    }
    assert secrets[..|secrets|] == secrets;
    return MigrationRun(Completed, successful, failed, writes, if failed > 0 then 1 else 0);
  }

  /**
   * The exit decision: a run that got through its secrets has counted each
   * one once and exits with status 1 exactly when some failed; an empty
   * listing returns before counting, with status 0 and no writes.
   */
  lemma ExitDecision(env: map<string, string>, ext: Externals)
    ensures var run := Migration(env, ext);
      run.exitCode != 0 <==> run.ending.ListingFailed? || run.ending.Crashed? || (run.ending.Completed? && run.failed > 0)
    ensures var run := Migration(env, ext);
      run.ending.Completed? ==>
        ListingOf(ext.listSecrets, Some(ReadConfig(env).awsSecretPrefix)).Listed?
        && run.successful + run.failed == |ListingOf(ext.listSecrets, Some(ReadConfig(env).awsSecretPrefix)).secrets|
    ensures var run := Migration(env, ext);
      run.ending.NothingToMigrate? ==> run.successful == 0 && run.failed == 0 && run.writes == [] && run.exitCode == 0
  {
    var cfg := ReadConfig(env);
    var listing := ListingOf(ext.listSecrets, Some(cfg.awsSecretPrefix));
    if listing.Listed? && listing.secrets != [] && Process(cfg, ext, listing.secrets).crash.None? {
      CountersBalance(cfg, ext, listing.secrets);
    }
  }

  /** A dry run never writes to Vault, whatever the listing and the payloads. */
  lemma DryRunNeverWrites(env: map<string, string>, ext: Externals)
    requires ReadConfig(env).dryRun
    ensures Migration(env, ext).writes == []
  {
    var cfg := ReadConfig(env);
    var listing := ListingOf(ext.listSecrets, Some(cfg.awsSecretPrefix));
    if listing.Listed? {
      DryRunWritesNothing(cfg, ext, listing.secrets);
    }
  }

  /**
   * A single listed secret whose payload is JSON for an empty object is
   * counted as failed, never written, and fails the run.
   */
  lemma EmptyObjectSecretFails(env: map<string, string>, ext: Externals, secret: SecretEntry)
    requires ListingOf(ext.listSecrets, Some(ReadConfig(env).awsSecretPrefix)) == Listed([secret])
    requires ext.getSecretValue(secret.name).Success?
    requires ext.getSecretValue(secret.name).value.secretString.Some?
    requires ext.jsonLoads(ext.getSecretValue(secret.name).value.secretString.value) == Some(PyDict(map[]))
    ensures Migration(env, ext) == MigrationRun(Completed, 0, 1, [], 1)
  {
    var cfg := ReadConfig(env);
    assert [secret][..0] == [];
    assert !Truthy(PyDict(map[]));
    assert Process(cfg, ext, [secret]) == Progress(0, 1, [], None);
  }
}
