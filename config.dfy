/**
 * The backend's connection settings (backend/src/utils/config.ts): four
 * module-level variables and the object-store client built from them.
 * The client library is not modelled; a client is an immutable record of
 * the settings it was built with, and each build allocates a new one.
 */
module StoreConfig {
  import opened Wrappers

  const AccessKeyIdVar := "AWS_ACCESS_KEY_ID"
  const SecretAccessKeyVar := "AWS_SECRET_ACCESS_KEY"
  const RegionVar := "AWS_DEFAULT_REGION"
  const EndpointVar := "AWS_S3_ENDPOINT"

  /** `process.env[name]`, which is `undefined` when the variable is unset. */
  function EnvLookup(env: map<string, string>, name: string): (v: Option<string>)
    ensures v.Some? <==> name in env
    ensures v.Some? ==> v.value == env[name]
  {
    if name in env then Some(env[name]) else None
  }

  /** An object-store client; its settings are fixed when it is built. */
  class S3Client {
    const accessKeyId: Option<string>
    const secretAccessKey: Option<string>
    const region: Option<string>
    const endpoint: Option<string>
    const forcePathStyle: bool

    constructor (accessKeyId: Option<string>, secretAccessKey: Option<string>,
                 region: Option<string>, endpoint: Option<string>)
      ensures this.accessKeyId == accessKeyId && this.secretAccessKey == secretAccessKey
      ensures this.region == region && this.endpoint == endpoint
      ensures forcePathStyle
    {
      this.accessKeyId := accessKeyId;
      this.secretAccessKey := secretAccessKey;
      this.region := region;
      this.endpoint := endpoint;
      this.forcePathStyle := true;
    }
  }

  /** What `getConfig` returns. */
  datatype ConfigView = ConfigView(
    accessKeyId: Option<string>,
    secretAccessKey: Option<string>,
    region: Option<string>,
    endpoint: Option<string>,
    s3Client: S3Client)

  /** `c` was built from exactly these four settings, with path-style addressing. */
  predicate BuiltFrom(c: S3Client, accessKeyId: Option<string>, secretAccessKey: Option<string>,
                      region: Option<string>, endpoint: Option<string>)
  {
    && c.accessKeyId == accessKeyId && c.secretAccessKey == secretAccessKey
    && c.region == region && c.endpoint == endpoint
    && c.forcePathStyle
  }

  /** The module state of config.ts. */
  class Config {
    var accessKeyId: Option<string>
    var secretAccessKey: Option<string>
    var region: Option<string>
    var endpoint: Option<string>
    var s3Client: S3Client

    /** The client always corresponds to the current four settings. */
    predicate Valid()
      reads this
    {
      BuiltFrom(s3Client, accessKeyId, secretAccessKey, region, endpoint)
    }

    /** Module initialisation: the settings come from the environment, then the client is built. */
    constructor (env: map<string, string>)
      ensures accessKeyId == EnvLookup(env, AccessKeyIdVar)
      ensures secretAccessKey == EnvLookup(env, SecretAccessKeyVar)
      ensures region == EnvLookup(env, RegionVar)
      ensures endpoint == EnvLookup(env, EndpointVar)
      ensures Valid()
    {
      var a := EnvLookup(env, AccessKeyIdVar);
      var s := EnvLookup(env, SecretAccessKeyVar);
      var r := EnvLookup(env, RegionVar);
      var e := EnvLookup(env, EndpointVar);
      accessKeyId, secretAccessKey, region, endpoint := a, s, r, e;
      s3Client := new S3Client(a, s, r, e);
    }

    /** `initializeS3Client`: a new client from the current settings. */
    method InitializeS3Client() returns (c: S3Client)
      ensures fresh(c)
      ensures BuiltFrom(c, accessKeyId, secretAccessKey, region, endpoint)
    {
      c := new S3Client(accessKeyId, secretAccessKey, region, endpoint);
    }

    /** `updateConfig`: replace all four settings, then rebuild the client from them. */
    method UpdateConfig(newAccessKeyId: string, newSecretAccessKey: string,
                        newRegion: string, newEndpoint: string)
      modifies this
      ensures accessKeyId == Some(newAccessKeyId) && secretAccessKey == Some(newSecretAccessKey)
      ensures region == Some(newRegion) && endpoint == Some(newEndpoint)
      ensures fresh(s3Client)
      ensures Valid()
    {
      accessKeyId := Some(newAccessKeyId);
      secretAccessKey := Some(newSecretAccessKey);
      region := Some(newRegion);
      endpoint := Some(newEndpoint);
      s3Client := InitializeS3Client();
    }

    /** `getConfig`: reads the settings and the current client, changing nothing. */
    method GetConfig() returns (v: ConfigView)
      requires Valid()
      ensures v.accessKeyId == accessKeyId && v.secretAccessKey == secretAccessKey
      ensures v.region == region && v.endpoint == endpoint
      ensures v.s3Client == s3Client
      ensures BuiltFrom(v.s3Client, v.accessKeyId, v.secretAccessKey, v.region, v.endpoint)
    {
      v := ConfigView(accessKeyId, secretAccessKey, region, endpoint, s3Client);
    }
  }

  /** After an update, `getConfig` reports the new settings and a client built from them. */
  method UpdateThenGet(c: Config, a: string, s: string, r: string, e: string)
    returns (v: ConfigView)
    modifies c
    ensures v.accessKeyId == Some(a) && v.secretAccessKey == Some(s)
    ensures v.region == Some(r) && v.endpoint == Some(e)
    ensures BuiltFrom(v.s3Client, Some(a), Some(s), Some(r), Some(e))
    ensures fresh(v.s3Client)
  {
    c.UpdateConfig(a, s, r, e);
    v := c.GetConfig();
  }

  /** Two reads with no update between them see the same settings and the same client. */
  method GetTwice(c: Config) returns (v1: ConfigView, v2: ConfigView)
    requires c.Valid()
    ensures v1 == v2
  {
    v1 := c.GetConfig();
    v2 := c.GetConfig();
  }
}
