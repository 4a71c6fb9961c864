/** The custom resource (`pkg/apis/aws/v1beta1`) and the S3 configuration records it is turned into. */
module Api {
  import opened Wrappers
  import opened Tags
  import opened JsonLexer
  import opened RoutingRules

  /** The settings of a reconciler. */
  datatype Config = Config(partition: string, region: string, floats: Strconv)

  // ---------------------------------------------------------------- the custom resource

  datatype DeleteStrategy = Unset | Delete | Skip | Force
  datatype OwnershipStrategy = NotGiven | Created | Acquire

  /** A Go slice of strings: nil and empty are different values. */
  datatype Strings = NilSlice | Slice(items: seq<string>) {
    function Items(): seq<string> { if NilSlice? then [] else items }
  }

  datatype CorsRule = CorsRule(allowedHeaders: Strings, allowedMethods: Strings, allowedOrigins: Strings,
                               exposeHeaders: Strings, maxAgeSeconds: Option<int>)
  datatype Sse = Sse(algorithm: string, kmsKey: string)
  datatype Logging = Logging(targetBucket: string, targetPrefix: string)
  datatype Endpoint = Endpoint(indexDocument: string, errorDocument: string, routingRules: string)
  datatype Redirect = Redirect(hostName: string, protocol: string)
  datatype Website = Website(endpoint: Option<Endpoint>, redirect: Option<Redirect>)

  datatype Spec = Spec(bucket: string, region: string, acl: string, policy: string, tags: TagMap,
                       deleteStrategy: DeleteStrategy, ownershipStrategy: OwnershipStrategy,
                       sse: Option<Sse>, versioning: Option<bool>, logging: Option<Logging>,
                       website: Option<Website>, cors: Option<seq<CorsRule>>)

  datatype Status = Status(arn: string, location: string, acl: string)

  datatype Object = Object(version: nat, finalizers: seq<string>, deleting: bool, spec: Spec, status: Status)

  // ---------------------------------------------------------------- what S3 holds

  datatype SseDefault = SseDefault(algorithm: Option<string>, kmsKey: Option<string>)
  datatype WireSse = WireSse(byDefault: Option<SseDefault>)
  datatype WireLogging = WireLogging(targetBucket: Option<string>, targetPrefix: Option<string>)
  datatype WireRedirect = WireRedirect(hostName: Option<string>, protocol: Option<string>)
  datatype WireWebsite = WireWebsite(index: Option<string>, error: Option<string>, rules: seq<RoutingRule>,
                                     redirect: Option<WireRedirect>)
  datatype WireCors = WireCors(headers: seq<string>, methods: seq<string>, origins: seq<string>,
                               expose: seq<string>, maxAge: Option<int>)
  datatype Versioning = Unversioned | Enabled | Suspended

  /**
    A bucket.  `byOperator` is a history variable: the bucket came from a CreateBucket call of
    the reconciler.  The tags of AWS's own come first in the tag set.
   */
  datatype Bucket = Bucket(location: Option<string>, byOperator: bool, hasObjects: bool,
                           tagSet: seq<Tag>, policy: Option<string>, acl: string, sse: seq<WireSse>,
                           versioning: Versioning, logging: Option<WireLogging>, website: Option<WireWebsite>,
                           cors: seq<WireCors>)

  type Buckets = map<string, Bucket>

  // ---------------------------------------------------------------- requests and replies

  datatype Feature = Tagging | Policy | Acl | Encryption | VersioningState | LoggingTarget | WebsiteHosting | Cors

  /** A call that sets or clears one feature of a bucket. */
  datatype Change =
    | PutTags(tags: seq<Tag>) | DeleteTags
    | PutPolicy(text: string) | DeletePolicy
    | PutAcl(acl: string)
    | PutEncryption(rules: seq<WireSse>) | DeleteEncryption
    | PutVersioning(status: Versioning)
    | PutLogging(target: Option<WireLogging>)
    | PutWebsite(site: WireWebsite) | DeleteWebsite
    | PutCors(cors: seq<WireCors>) | DeleteCors
  {
    function Feature(): Feature {
      match this
      case PutTags(_) => Tagging
      case DeleteTags => Tagging
      case PutPolicy(_) => Policy
      case DeletePolicy => Policy
      case PutAcl(_) => Acl
      case PutEncryption(_) => Encryption
      case DeleteEncryption => Encryption
      case PutVersioning(_) => VersioningState
      case PutLogging(_) => LoggingTarget
      case PutWebsite(_) => WebsiteHosting
      case DeleteWebsite => WebsiteHosting
      case PutCors(_) => Cors
      case DeleteCors => Cors
    }
  }

  datatype Request =
    | Head(bucket: string)
    | Locate(bucket: string)
    | Inspect(bucket: string, feature: Feature)
    | Create(bucket: string, acl: string, region: string)
    | Configure(bucket: string, change: Change)
    | Delete(bucket: string)
    | Empty(bucket: string)
  {
    predicate ReadOnly() { Head? || Locate? || Inspect? }
  }

  datatype ErrorCode =
    | NoSuchBucket | NotFound | NoSuchTagSet | NoSuchBucketPolicy | NoSuchCORSConfiguration
    | NoSuchWebsiteConfiguration | NotImplemented | ServerSideEncryptionConfigurationNotFoundError
    | BucketNotEmpty | BucketAlreadyExists | OperationAborted | OtherError
  {
    function HttpStatus(): int {
      match this
      case BucketNotEmpty => 409
      case BucketAlreadyExists => 409
      case OperationAborted => 409
      case NotImplemented => 501
      case OtherError => 500
      case _ => 404
    }
  }

  datatype Reply =
    | Ack
    | Location(constraint: Option<string>)
    | TagSet(tagSet: seq<Tag>)
    | PolicyText(policy: Option<string>)
    | SseRules(sse: seq<WireSse>)
    | VersioningIs(versioning: Versioning)
    | LoggingIs(logging: Option<WireLogging>)
    | WebsiteIs(website: WireWebsite)
    | CorsIs(cors: seq<WireCors>)
    | Failure(code: ErrorCode)

  // ---------------------------------------------------------------- what S3 does

  function ApplyChange(b: Bucket, c: Change): Bucket {
    match c
    case PutTags(ts) => b.(tagSet := SystemTags(b.tagSet) + ts)
    case DeleteTags => b.(tagSet := SystemTags(b.tagSet))
    case PutPolicy(text) => b.(policy := Some(text))
    case DeletePolicy => b.(policy := None)
    case PutAcl(acl) => b.(acl := acl)
    case PutEncryption(rules) => b.(sse := rules)
    case DeleteEncryption => b.(sse := [])
    case PutVersioning(status) => b.(versioning := status)
    case PutLogging(target) => b.(logging := target)
    case PutWebsite(site) => b.(website := Some(site))
    case DeleteWebsite => b.(website := None)
    case PutCors(cors) => b.(cors := cors)
    case DeleteCors => b.(cors := [])
  }

  /** Tags of AWS's own, which tag calls of users leave alone. */
  function SystemTags(ts: seq<Tag>): (r: seq<Tag>)
    ensures forall i | 0 <= i < |r| :: Ignored(r[i].key)
  {
    if ts == [] then []
    else (if Ignored(ts[0].key) then [ts[0]] else []) + SystemTags(ts[1..])
  }

  function NewBucket(acl: string, region: string): Bucket {
    Bucket(Some(region), true, false, [], None, acl, [], Unversioned, None, None, [])
  }

  /** The buckets after a request that S3 carries out. */
  function Served(bs: Buckets, req: Request): Buckets {
    match req
    case Create(b, acl, region) => if b in bs then bs else bs[b := NewBucket(acl, region)]
    case Configure(b, change) => if b in bs then bs[b := ApplyChange(bs[b], change)] else bs
    case Delete(b) => if b in bs && !bs[b].hasObjects then bs - {b} else bs
    case Empty(b) => if b in bs then bs[b := bs[b].(hasObjects := false)] else bs
    case _ => bs
  }

  function InspectReply(b: Bucket, f: Feature): Reply {
    match f
    case Tagging => if b.tagSet == [] then Failure(NoSuchTagSet) else TagSet(b.tagSet)
    case Policy => if b.policy.None? then Failure(NoSuchBucketPolicy) else PolicyText(b.policy)
    case Acl => Ack
    case Encryption => if b.sse == [] then Failure(ServerSideEncryptionConfigurationNotFoundError) else SseRules(b.sse)
    case VersioningState => VersioningIs(b.versioning)
    case LoggingTarget => LoggingIs(b.logging)
    case WebsiteHosting => if b.website.None? then Failure(NoSuchWebsiteConfiguration) else WebsiteIs(b.website.value)
    case Cors => if b.cors == [] then Failure(NoSuchCORSConfiguration) else CorsIs(b.cors)
  }

  /** The truthful reply to a request. */
  function Answer(bs: Buckets, req: Request): Reply {
    match req
    case Head(b) => if b in bs then Ack else Failure(NotFound)
    case Create(b, _, _) => if b in bs then Failure(BucketAlreadyExists) else Ack
    case Locate(b) => if b in bs then Location(bs[b].location) else Failure(NoSuchBucket)
    case Inspect(b, f) => if b in bs then InspectReply(bs[b], f) else Failure(NoSuchBucket)
    case Configure(b, _) => if b in bs then Ack else Failure(NoSuchBucket)
    case Delete(b) =>
      if b !in bs then Failure(NoSuchBucket) else if bs[b].hasObjects then Failure(BucketNotEmpty) else Ack
    case Empty(b) => if b in bs then Ack else Failure(NoSuchBucket)
  }

  /** A store that serves no websites says so, instead of saying that the bucket has none. */
  predicate SaysNotImplemented(bs: Buckets, req: Request) {
    req.Inspect? && req.feature == WebsiteHosting && req.bucket in bs && bs[req.bucket].website.None?
  }

  /** The reply is true. */
  predicate Answers(bs: Buckets, req: Request, reply: Reply) {
    reply == Answer(bs, req) || (SaysNotImplemented(bs, req) && reply == Failure(NotImplemented))
  }

  /**
    A call may fail for reasons of its own, whether or not it was carried out.  S3 may also
    report a bucket it does not see yet as missing, though not to a delete.
   */
  predicate MayFailWith(req: Request, code: ErrorCode) {
    code == OperationAborted || code == OtherError || (code == NoSuchBucket && !req.Delete?)
  }
}
