/** `ReconcileS3Bucket`, method by method. */
module Reconciler {
  import opened Wrappers
  import opened Names
  import opened NormalizeJson
  import opened Finalizers
  import opened Tags
  import opened RoutingRules
  import opened Api
  import opened Features
  import opened Protocol
  import opened Environment
  import opened Contracts

  class ReconcileS3Bucket {
    const cfg: Config
    const env: World

    constructor (cfg: Config, env: World)
      ensures this.cfg == cfg && this.env == env
    {
      this.cfg := cfg;
      this.env := env;
    }

    ghost predicate Ready(o: Object)
      reads env
    {
      env.Valid(cfg) && Managing(cfg, env.state, o)
    }

    /** Sends one change and turns a failure into a retry error; `codes` are those worth a retry. */
    method Change(ghost o: Object, bucket: string, change: Change, codes: set<ErrorCode>)
      returns (err: Option<RetryError>)
      requires Ready(o) && bucket == o.spec.bucket && codes == RetryCodes(change)
      requires AsSpecified(cfg, o, change) && (env.state.calm ==> Needed(cfg, o, env.state.buckets[bucket], change))
      modifies env`state, env`trace
      ensures env.Valid(cfg) && |old(env.trace)| < |env.trace|
      ensures Changed(cfg, o, change, old(env.state), env.state, env.LastEvent(), err)
    {
      var reply := env.Configure(cfg, o, bucket, change);
      err := if reply.Failure? then Some(RetryError(reply.code in codes)) else None;
    }

    /** Sends the one change of a stage. */
    method StageChange(ghost o: Object, bucket: string, change: Change) returns (err: Option<RetryError>)
      requires Ready(o) && bucket == o.spec.bucket && change.Feature() != Tagging && change.Feature() != Acl
      requires AsSpecified(cfg, o, change) && UsableSomehow(cfg, change.Feature(), o.spec)
      requires env.state.calm ==>
                 var b := env.state.buckets[bucket];
                 Needed(cfg, o, b, change) && RightChange(cfg, change, o.spec, b, b)
      modifies env`state, env`trace
      ensures env.Valid(cfg) && |old(env.trace)| < |env.trace|
      ensures StageDone(cfg, change.Feature(), o, old(env.state), env.state, env.LastEvent(), err)
    {
      ghost var s := env.state;
      if s.calm { TouchesNothing(change.Feature(), bucket, s.buckets); }
      err := Change(o, bucket, change, {NoSuchBucket});
      StageWrote(cfg, change, o, s, s, env.state, env.LastEvent(), err);
    }

    // -------------------------------------------------------------- tags

    /** `seen` is the bucket as it was read; so in the other read methods. */
    method ReadBucketTags(ghost o: Object, bucket: string)
      returns (tags: TagMap, err: Option<RetryError>, ghost seen: Bucket)
      requires Ready(o) && bucket == o.spec.bucket
      modifies env`state, env`trace
      ensures Ready(o) && |old(env.trace)| < |env.trace|
      ensures ReadDone(Tagging, bucket, seen, old(env.state), env.state, env.LastEvent(), err)
      ensures err.None? ==> tags == ToMap(seen.tagSet)
    {
      var reply;
      reply, seen := env.Inspect(cfg, o, bucket, Tagging);
      tags, err := map[], None;
      if reply.Failure? && reply.code == NoSuchTagSet {
        return;
      } else if reply.Failure? {
        err := Some(RetryError(false));
        return;
      }
      tags := TagsToMapS3(reply.tagSet);
    }

    method ReconcileBucketTags(instance: Instance) returns (err: Option<RetryError>)
      requires Ready(instance.obj)
      modifies env`state, env`trace
      ensures env.Valid(cfg) && |old(env.trace)| < |env.trace|
      ensures StageDone(cfg, Tagging, instance.obj, old(env.state), env.state, env.LastEvent(), err)
    {
      ghost var o, s := instance.obj, env.state;
      var bucket := instance.obj.spec.bucket;
      var currentTags, readErr, seen := ReadBucketTags(o, bucket);
      ghost var u := env.state;
      if readErr.Some? {
        StageUnread(cfg, Tagging, o, seen, s, u, env.LastEvent(), readErr);
        return readErr;
      }
      var desiredTags := instance.obj.spec.tags;
      ToMapVisible(seen.tagSet);
      if currentTags == desiredTags {
        StageIdle(cfg, Tagging, o, s, u, env.LastEvent());
        return None;
      }
      var create, remove := DiffTagsS3(currentTags, desiredTags);
      RemoveNamesOne(currentTags, desiredTags, remove);
      err := ReplaceBucketTags(o, bucket, create, remove);
      StageAfterRead(cfg, Tagging, o, s, u, env.state, env.LastEvent(), err);
    }

    /** The writing half of the tag stage: delete what is stale, then put everything desired. */
    method ReplaceBucketTags(ghost o: Object, bucket: string, create: TagMap, remove: TagMap)
      returns (err: Option<RetryError>)
      requires Ready(o) && bucket == o.spec.bucket && create == o.spec.tags
      requires env.state.calm ==> ToMap(env.state.buckets[bucket].tagSet) != create
      requires env.state.calm ==> (|remove| > 0 <==> LosesTag(ToMap(env.state.buckets[bucket].tagSet), create))
      requires |remove| == 0 ==> create != map[]
      modifies env`state, env`trace
      ensures env.Valid(cfg) && |old(env.trace)| < |env.trace|
      ensures StageDone(cfg, Tagging, o, old(env.state), env.state, env.LastEvent(), err)
    {
      ghost var s := env.state;
      if |remove| > 0 {
        err := DeleteStaleTags(o, bucket, create);
        if err.Some? || |create| == 0 { return; }
      } else if s.calm {
        TouchesNothing(Tagging, bucket, s.buckets);
      }
      var tags := TagsFromMapS3(create);
      ghost var u := env.state;
      if u.calm { PutTagsRight(cfg, tags, o.spec, s.buckets[bucket], u.buckets[bucket]); }
      err := Change(o, bucket, PutTags(tags), {NoSuchBucket, OperationAborted});
      StageWrote(cfg, PutTags(tags), o, s, u, env.state, env.LastEvent(), err);
    }

    method DeleteStaleTags(ghost o: Object, bucket: string, ghost create: TagMap) returns (err: Option<RetryError>)
      requires Ready(o) && bucket == o.spec.bucket && create == o.spec.tags
      requires env.state.calm ==> LosesTag(ToMap(env.state.buckets[bucket].tagSet), create)
      modifies env`state, env`trace
      ensures env.Valid(cfg) && |old(env.trace)| < |env.trace|
      ensures err.Some? || create == map[] ==>
                StageDone(cfg, Tagging, o, old(env.state), env.state, env.LastEvent(), err)
      ensures err.None? ==> Ready(o) && env.state.sent == old(env.state).sent + {Tagging}
      ensures err.None? && env.state.calm ==>
                && old(env.state).calm && Touches(Tagging, bucket, old(env.state).buckets, env.state.buckets)
                && ToMap(env.state.buckets[bucket].tagSet) == map[]
    {
      ghost var s := env.state;
      if s.calm {
        TouchesNothing(Tagging, bucket, s.buckets);
        SystemTagsOnly(s.buckets[bucket].tagSet);
      }
      err := Change(o, bucket, DeleteTags, {NoSuchBucket, OperationAborted});
      if create == map[] {
        StageWrote(cfg, DeleteTags, o, s, s, env.state, env.LastEvent(), err);
      }
    }

    lemma RemoveNamesOne(current: TagMap, desired: TagMap, remove: TagMap)
      requires remove == map k | k in current && !(k in desired && desired[k] == current[k]) :: current[k]
      ensures |remove| > 0 <==> LosesTag(current, desired)
      ensures |remove| == 0 && desired == map[] ==> current == map[]
    {
      if exists k :: k in current && !(k in desired && desired[k] == current[k]) {
        var k :| k in current && !(k in desired && desired[k] == current[k]);
        assert k in remove;
      } else {
        assert remove == map[];
      }
    }

    // -------------------------------------------------------------- policy

    method ReadBucketPolicy(ghost o: Object, bucket: string)
      returns (policy: string, err: Option<RetryError>, ghost seen: Bucket)
      requires Ready(o) && bucket == o.spec.bucket
      modifies env`state, env`trace
      ensures Ready(o) && |old(env.trace)| < |env.trace|
      ensures ReadDone(Policy, bucket, seen, old(env.state), env.state, env.LastEvent(), err)
      ensures err.None? ==> policy == ReadPolicy(cfg.floats, seen.policy)
    {
      var reply;
      reply, seen := env.Inspect(cfg, o, bucket, Policy);
      policy, err := "", None;
      if reply.Failure? {
        if reply.code == NoSuchBucket {
          err := Some(RetryError(true));
        } else if reply.code.HttpStatus() != 404 {
          err := Some(RetryError(false));
        }
        return;
      }
      if reply.policy.Some? {
        policy := reply.policy.value;
        if policy != "" {
          // A stored text that is not JSON is kept as it is.
          policy := Normalize(cfg.floats, policy).text;
        }
      }
    }

    method UpdateBucketPolicy(instance: Instance) returns (err: Option<RetryError>)
      requires Ready(instance.obj)
      requires env.state.calm ==>
                 !Agrees(cfg.floats, Policy, instance.obj.spec, env.state.buckets[instance.obj.spec.bucket])
      requires !Normalize(cfg.floats, instance.obj.spec.policy).failed
      modifies env`state, env`trace
      ensures env.Valid(cfg) && |old(env.trace)| < |env.trace|
      ensures StageDone(cfg, Policy, instance.obj, old(env.state), env.state, env.LastEvent(), err)
    {
      var bucket := instance.obj.spec.bucket;
      var desiredPolicy := Trim(instance.obj.spec.policy);
      if desiredPolicy != "" {
        PolicyReadBack(cfg.floats, instance.obj.spec.policy);
        err := StageChange(instance.obj, bucket, PutPolicy(desiredPolicy));
      } else {
        if instance.obj.spec.policy != "" { BlankPolicyFails(cfg.floats, instance.obj.spec.policy); }
        err := StageChange(instance.obj, bucket, DeletePolicy);
      }
    }

    method ReconcileBucketPolicy(instance: Instance) returns (err: Option<RetryError>)
      requires Ready(instance.obj)
      modifies env`state, env`trace
      ensures env.Valid(cfg) && |old(env.trace)| < |env.trace|
      ensures StageDone(cfg, Policy, instance.obj, old(env.state), env.state, env.LastEvent(), err)
    {
      ghost var o, s := instance.obj, env.state;
      var bucket := instance.obj.spec.bucket;
      var currentPolicy, readErr, seen := ReadBucketPolicy(o, bucket);
      ghost var u := env.state;
      if readErr.Some? {
        StageUnread(cfg, Policy, o, seen, s, u, env.LastEvent(), readErr);
        return readErr;
      }
      var desiredPolicy := instance.obj.spec.policy;
      if desiredPolicy != "" {
        var normalized := Normalize(cfg.floats, desiredPolicy);
        if normalized.failed {
          StageRejects(cfg, Policy, o, s, u, env.LastEvent());
          return Some(RetryError(false));
        }
        desiredPolicy := normalized.text;
      }
      if currentPolicy == desiredPolicy {
        StageIdle(cfg, Policy, o, s, u, env.LastEvent());
        return None;
      }
      err := UpdateBucketPolicy(instance);
      StageAfterRead(cfg, Policy, o, s, u, env.state, env.LastEvent(), err);
    }

    // -------------------------------------------------------------- encryption

    method ReadBucketEncryption(ghost o: Object, bucket: string)
      returns (current: Option<Sse>, err: Option<RetryError>, ghost seen: Bucket)
      requires Ready(o) && bucket == o.spec.bucket
      modifies env`state, env`trace
      ensures Ready(o) && |old(env.trace)| < |env.trace|
      ensures ReadDone(Encryption, bucket, seen, old(env.state), env.state, env.LastEvent(), err)
      ensures err.None? ==> current == ReadSse(seen.sse)
    {
      var reply;
      reply, seen := env.Inspect(cfg, o, bucket, Encryption);
      current, err := None, None;
      if reply.Failure? {
        if reply.code == NoSuchBucket {
          err := Some(RetryError(true));
        } else if reply.code != ServerSideEncryptionConfigurationNotFoundError {
          err := Some(RetryError(false));
        }
        return;
      }
      for i := 0 to |reply.sse|
        invariant ReadSse(reply.sse) == ReadSse(reply.sse[i..])
      {
        var v := reply.sse[i];
        if v.byDefault.Some? && v.byDefault.value.algorithm.Some? {
          current := Some(Sse(v.byDefault.value.algorithm.value, v.byDefault.value.kmsKey.GetOr("")));
          return;
        }
      }
    }

    method UpdateBucketEncryption(ghost o: Object, bucket: string, desired: Sse) returns (err: Option<RetryError>)
      requires Ready(o) && bucket == o.spec.bucket && o.spec.sse == Some(desired)
      requires env.state.calm ==> !Agrees(cfg.floats, Encryption, o.spec, env.state.buckets[bucket])
      modifies env`state, env`trace
      ensures env.Valid(cfg) && |old(env.trace)| < |env.trace|
      ensures StageDone(cfg, Encryption, o, old(env.state), env.state, env.LastEvent(), err)
    {
      var kmsKey := None;
      if desired.kmsKey != "" { kmsKey := Some(desired.kmsKey); }
      var rules := [WireSse(Some(SseDefault(Some(desired.algorithm), kmsKey)))];
      SseRoundTrip(desired);
      err := StageChange(o, bucket, PutEncryption(rules));
    }

    method ReconcileBucketEncryption(instance: Instance) returns (err: Option<RetryError>)
      requires Ready(instance.obj)
      modifies env`state, env`trace
      ensures env.Valid(cfg) && |old(env.trace)| < |env.trace|
      ensures StageDone(cfg, Encryption, instance.obj, old(env.state), env.state, env.LastEvent(), err)
    {
      ghost var o, s := instance.obj, env.state;
      var bucket := instance.obj.spec.bucket;
      var current, readErr, seen := ReadBucketEncryption(o, bucket);
      ghost var u := env.state;
      if readErr.Some? {
        StageUnread(cfg, Encryption, o, seen, s, u, env.LastEvent(), readErr);
        return readErr;
      }
      var desired := instance.obj.spec.sse;
      if current == desired { StageIdle(cfg, Encryption, o, s, u, env.LastEvent()); }
      if current.None? && desired.None? {
        return None;
      } else if current.None? && desired.Some? {
        err := UpdateBucketEncryption(o, bucket, desired.value);
      } else if current.Some? && desired.None? {
        err := StageChange(o, bucket, DeleteEncryption);
      } else if current != desired {
        err := UpdateBucketEncryption(o, bucket, desired.value);
      } else {
        return None;
      }
      StageAfterRead(cfg, Encryption, o, s, u, env.state, env.LastEvent(), err);
    }

    // -------------------------------------------------------------- versioning

    method ReadBucketVersioning(ghost o: Object, bucket: string)
      returns (enabled: bool, err: Option<RetryError>, ghost seen: Bucket)
      requires Ready(o) && bucket == o.spec.bucket
      modifies env`state, env`trace
      ensures Ready(o) && |old(env.trace)| < |env.trace|
      ensures ReadDone(VersioningState, bucket, seen, old(env.state), env.state, env.LastEvent(), err)
      ensures err.None? ==> enabled == (seen.versioning == Enabled)
    {
      var reply;
      reply, seen := env.Inspect(cfg, o, bucket, VersioningState);
      enabled, err := false, None;
      if reply.Failure? {
        err := Some(RetryError(reply.code == NoSuchBucket));
        return;
      }
      enabled := reply.versioning == Enabled;
    }

    method ReconcileBucketVersioning(instance: Instance) returns (err: Option<RetryError>)
      requires Ready(instance.obj)
      modifies env`state, env`trace
      ensures env.Valid(cfg) && |old(env.trace)| < |env.trace|
      ensures StageDone(cfg, VersioningState, instance.obj, old(env.state), env.state, env.LastEvent(), err)
      ensures env.state.calm ==>
                var name := instance.obj.spec.bucket;
                var b, c := old(env.state).buckets[name], env.state.buckets[name];
                (b.versioning == Enabled) == DesiredVersioning(instance.obj.spec) ==> c.versioning == b.versioning
    {
      ghost var o, s := instance.obj, env.state;
      var bucket := instance.obj.spec.bucket;
      var currentEnabled, readErr, seen := ReadBucketVersioning(o, bucket);
      ghost var u := env.state;
      if readErr.Some? {
        StageUnread(cfg, VersioningState, o, seen, s, u, env.LastEvent(), readErr);
        return readErr;
      }
      var desiredEnabled := false;
      if instance.obj.spec.versioning.Some? { desiredEnabled := instance.obj.spec.versioning.value; }
      if currentEnabled == desiredEnabled {
        StageIdle(cfg, VersioningState, o, s, u, env.LastEvent());
        return None;
      }
      err := StageChange(o, bucket, PutVersioning(WriteVersioning(desiredEnabled)));
      StageAfterRead(cfg, VersioningState, o, s, u, env.state, env.LastEvent(), err);
    }

    // -------------------------------------------------------------- logging

    method ReadBucketLogging(ghost o: Object, bucket: string)
      returns (current: Option<Logging>, err: Option<RetryError>, ghost seen: Bucket)
      requires Ready(o) && bucket == o.spec.bucket
      modifies env`state, env`trace
      ensures Ready(o) && |old(env.trace)| < |env.trace|
      ensures ReadDone(LoggingTarget, bucket, seen, old(env.state), env.state, env.LastEvent(), err)
      ensures err.None? ==> current == ReadLogging(seen.logging)
    {
      var reply;
      reply, seen := env.Inspect(cfg, o, bucket, LoggingTarget);
      current, err := None, None;
      if reply.Failure? {
        err := Some(RetryError(reply.code == NoSuchBucket));
        return;
      }
      var enabled := reply.logging;
      if enabled.Some? && enabled.value.targetBucket.Some? {
        current := Some(Logging(enabled.value.targetBucket.value, enabled.value.targetPrefix.GetOr("")));
      }
    }

    method UpdateBucketLogging(ghost o: Object, bucket: string, desired: Logging) returns (err: Option<RetryError>)
      requires Ready(o) && bucket == o.spec.bucket && o.spec.logging == Some(desired)
      requires env.state.calm ==> !Agrees(cfg.floats, LoggingTarget, o.spec, env.state.buckets[bucket])
      modifies env`state, env`trace
      ensures env.Valid(cfg) && |old(env.trace)| < |env.trace|
      ensures StageDone(cfg, LoggingTarget, o, old(env.state), env.state, env.LastEvent(), err)
    {
      LoggingRoundTrip(Some(desired));
      var target := WireLogging(Some(desired.targetBucket), Some(desired.targetPrefix));
      err := StageChange(o, bucket, PutLogging(Some(target)));
    }

    method ReconcileBucketLogging(instance: Instance) returns (err: Option<RetryError>)
      requires Ready(instance.obj)
      modifies env`state, env`trace
      ensures env.Valid(cfg) && |old(env.trace)| < |env.trace|
      ensures StageDone(cfg, LoggingTarget, instance.obj, old(env.state), env.state, env.LastEvent(), err)
    {
      ghost var o, s := instance.obj, env.state;
      var bucket := instance.obj.spec.bucket;
      var current, readErr, seen := ReadBucketLogging(o, bucket);
      ghost var u := env.state;
      if readErr.Some? {
        StageUnread(cfg, LoggingTarget, o, seen, s, u, env.LastEvent(), readErr);
        return readErr;
      }
      var desired := instance.obj.spec.logging;
      if current == desired { StageIdle(cfg, LoggingTarget, o, s, u, env.LastEvent()); }
      if current.None? && desired.None? {
        return None;
      } else if current.None? && desired.Some? {
        err := UpdateBucketLogging(o, bucket, desired.value);
      } else if current.Some? && desired.None? {
        err := StageChange(o, bucket, PutLogging(None));
      } else if current != desired {
        err := UpdateBucketLogging(o, bucket, desired.value);
      } else {
        return None;
      }
      StageAfterRead(cfg, LoggingTarget, o, s, u, env.state, env.LastEvent(), err);
    }

    // -------------------------------------------------------------- CORS

    method ReadBucketCors(ghost o: Object, bucket: string)
      returns (current: Option<seq<CorsRule>>, err: Option<RetryError>, ghost seen: Bucket)
      requires Ready(o) && bucket == o.spec.bucket
      modifies env`state, env`trace
      ensures Ready(o) && |old(env.trace)| < |env.trace|
      ensures ReadDone(Cors, bucket, seen, old(env.state), env.state, env.LastEvent(), err)
      ensures err.None? ==> current == ReadCors(seen.cors)
    {
      var reply;
      reply, seen := env.Inspect(cfg, o, bucket, Cors);
      current, err := None, None;
      if reply.Failure? {
        if reply.code == NoSuchBucket {
          err := Some(RetryError(true));
        } else if reply.code != NoSuchCORSConfiguration {
          err := Some(RetryError(false));
        }
        return;
      }
      if |reply.cors| == 0 { return; }
      var rules: seq<CorsRule> := [];
      for i := 0 to |reply.cors|
        invariant rules == ReadCorsRules(reply.cors[..i])
      {
        var r := reply.cors[i];
        rules := rules + [CorsRule(Slice(r.headers), Slice(r.methods), Slice(r.origins), Slice(r.expose), r.maxAge)];
      }
      assert reply.cors[..|reply.cors|] == reply.cors;
      current := Some(rules);
    }

    method UpdateBucketCors(ghost o: Object, bucket: string, desired: seq<CorsRule>) returns (err: Option<RetryError>)
      requires Ready(o) && bucket == o.spec.bucket && o.spec.cors == Some(desired)
      requires env.state.calm ==> !Agrees(cfg.floats, Cors, o.spec, env.state.buckets[bucket])
      modifies env`state, env`trace
      ensures env.Valid(cfg) && |old(env.trace)| < |env.trace|
      ensures StageDone(cfg, Cors, o, old(env.state), env.state, env.LastEvent(), err)
    {
      var corsRules: seq<WireCors> := [];
      for i := 0 to |desired|
        invariant corsRules == WriteCors(desired[..i])
      {
        var r := desired[i];
        corsRules := corsRules + [WireCors(r.allowedHeaders.Items(), r.allowedMethods.Items(), r.allowedOrigins.Items(),
                                           r.exposeHeaders.Items(), r.maxAgeSeconds)];
      }
      assert desired[..|desired|] == desired;
      err := StageChange(o, bucket, PutCors(corsRules));
    }

    /** The website stage may have rewritten the instance's website, so `o` is the object as read. */
    method ReconcileBucketCors(instance: Instance, ghost o: Object) returns (err: Option<RetryError>)
      requires Ready(o) && instance.obj.spec.bucket == o.spec.bucket && instance.obj.spec.cors == o.spec.cors
      modifies env`state, env`trace
      ensures env.Valid(cfg) && |old(env.trace)| < |env.trace|
      ensures StageDone(cfg, Cors, o, old(env.state), env.state, env.LastEvent(), err)
    {
      ghost var s := env.state;
      var bucket := instance.obj.spec.bucket;
      var current, readErr, seen := ReadBucketCors(o, bucket);
      ghost var u := env.state;
      if readErr.Some? {
        StageUnread(cfg, Cors, o, seen, s, u, env.LastEvent(), readErr);
        return readErr;
      }
      var desired := instance.obj.spec.cors;
      if desired.Some? { CorsRoundTrip(seen.cors, desired.value); }
      if current.None? && desired.None? {
        StageIdle(cfg, Cors, o, s, u, env.LastEvent());
        return None;
      } else if current.None? && desired.Some? {
        err := UpdateBucketCors(o, bucket, desired.value);
      } else if current.Some? && desired.None? {
        err := StageChange(o, bucket, DeleteCors);
      } else if !SameRules(current.value, desired.value) {
        err := UpdateBucketCors(o, bucket, desired.value);
      } else {
        StageIdle(cfg, Cors, o, s, u, env.LastEvent());
        return None;
      }
      StageAfterRead(cfg, Cors, o, s, u, env.state, env.LastEvent(), err);
    }

    // -------------------------------------------------------------- website

    method ReadBucketWebsite(ghost o: Object, bucket: string)
      returns (current: Option<Website>, err: Option<RetryError>, ghost seen: Bucket)
      requires Ready(o) && bucket == o.spec.bucket
      modifies env`state, env`trace
      ensures Ready(o) && |old(env.trace)| < |env.trace|
      ensures ReadDone(WebsiteHosting, bucket, seen, old(env.state), env.state, env.LastEvent(), err)
      ensures err.None? ==> current == ReadWebsite(cfg.floats, seen.website)
    {
      var reply;
      reply, seen := env.Inspect(cfg, o, bucket, WebsiteHosting);
      current, err := None, None;
      if reply.Failure? {
        if reply.code == NoSuchBucket {
          err := Some(RetryError(true));
        } else if reply.code != NoSuchWebsiteConfiguration && reply.code != NotImplemented {
          err := Some(RetryError(false));
        }
        return;
      }
      var website := reply.website;
      if website.index.Some? {
        var errorDocument := "";
        if website.error.Some? { errorDocument := website.error.value; }
        var routingRules := "";
        if |website.rules| > 0 {
          var text := NormalizeRoutingRules(cfg.floats, website.rules);
          routingRules := text.value;
        }
        current := Some(Website(Some(Endpoint(website.index.value, errorDocument, routingRules)), None));
      } else if website.redirect.Some? && website.redirect.value.hostName.Some? {
        var target := website.redirect.value;
        current := Some(Website(None, Some(Redirect(target.hostName.value, target.protocol.GetOr("")))));
      }
    }

    /** The request body of `updateBucketWebsite`; None when the routing rules do not decode. */
    method WebsiteConfiguration(desired: Website) returns (site: Option<WireWebsite>)
      ensures site == WriteWebsite(cfg.floats, desired)
    {
      var indexDocument, errorDocument, routingRules := None, None, [];
      if desired.endpoint.Some? {
        var endpoint := desired.endpoint.value;
        if endpoint.indexDocument != "" { indexDocument := Some(endpoint.indexDocument); }
        if endpoint.errorDocument != "" { errorDocument := Some(endpoint.errorDocument); }
        if endpoint.routingRules != "" {
          var decoded := RulesOf(cfg.floats, endpoint.routingRules);
          if decoded.None? { return None; }
          routingRules := decoded.value;
        }
      }
      var redirectAllRequestsTo := None;
      if desired.redirect.Some? && desired.redirect.value.hostName != "" {
        var protocol := None;
        if desired.redirect.value.protocol != "" { protocol := Some(desired.redirect.value.protocol); }
        redirectAllRequestsTo := Some(WireRedirect(Some(desired.redirect.value.hostName), protocol));
      }
      return Some(WireWebsite(indexDocument, errorDocument, routingRules, redirectAllRequestsTo));
    }

    /** `desired` has its routing rules as given, or in normal form when a website is `present`. */
    method UpdateBucketWebsite(ghost o: Object, bucket: string, desired: Website, ghost present: bool)
      returns (err: Option<RetryError>)
      requires Ready(o) && bucket == o.spec.bucket && o.spec.website.Some?
      requires WriteWebsite(cfg.floats, desired) == SiteFor(cfg.floats, o.spec.website.value, present)
      requires env.state.calm ==>
                 && !Agrees(cfg.floats, WebsiteHosting, o.spec, env.state.buckets[bucket])
                 && present == WebsitePresent(cfg.floats, env.state.buckets[bucket])
      requires StageOf(env.LastEvent()) == Some(WebsiteHosting)
      modifies env`state, env`trace
      ensures env.Valid(cfg) && |old(env.trace)| <= |env.trace|
      ensures StageDone(cfg, WebsiteHosting, o, old(env.state), env.state, env.LastEvent(), err)
      ensures !UsablePart(cfg.floats, WebsiteHosting, o.spec, present) ==>
                err == Some(RetryError(false)) && env.state == old(env.state) && env.trace == old(env.trace)
    {
      var site := WebsiteConfiguration(desired);
      if site.None? {
        StageRejects(cfg, WebsiteHosting, o, env.state, env.state, env.LastEvent());
        return Some(RetryError(false));
      }
      WebsiteReadBack(cfg.floats, o.spec.website.value, present);
      err := StageChange(o, bucket, PutWebsite(site.value));
    }

    /**
      The last case of the website stage: the website read and the desired one are compared with
      their rules in normal form, and the desired one, being part of the instance, is left so.
     */
    method UpdateChangedWebsite(instance: Instance, ghost seen: Bucket, current: Website, desired: Website)
      returns (err: Option<RetryError>)
      requires Ready(instance.obj) && instance.obj.spec.website == Some(desired)
      requires env.state.calm ==> seen == env.state.buckets[instance.obj.spec.bucket]
      requires ReadWebsite(cfg.floats, seen.website) == Some(current)
      requires StageOf(env.LastEvent()) == Some(WebsiteHosting)
      modifies env`state, env`trace, instance
      ensures env.Valid(cfg) && |old(env.trace)| <= |env.trace|
      ensures SameButWebsite(cfg, old(instance.obj), instance.obj)
      ensures StageDone(cfg, WebsiteHosting, old(instance.obj), old(env.state), env.state, env.LastEvent(), err)
    {
      ghost var o, s := instance.obj, env.state;
      var bucket := instance.obj.spec.bucket;
      ReadWebsiteNormal(cfg.floats, seen.website);
      var currentWebsite := current;
      if currentWebsite.endpoint.Some? && currentWebsite.endpoint.value.routingRules != "" {
        var normalized := Normalize(cfg.floats, currentWebsite.endpoint.value.routingRules);
        if normalized.failed { return Some(RetryError(false)); }
        currentWebsite := currentWebsite.(
          endpoint := Some(currentWebsite.endpoint.value.(routingRules := normalized.text)));
      }
      var desiredWebsite := desired;
      if desiredWebsite.endpoint.Some? && desiredWebsite.endpoint.value.routingRules != "" {
        var normalized := Normalize(cfg.floats, desiredWebsite.endpoint.value.routingRules);
        if normalized.failed {
          StageRejects(cfg, WebsiteHosting, o, s, s, env.LastEvent());
          return Some(RetryError(false));
        }
        desiredWebsite := desiredWebsite.(
          endpoint := Some(desiredWebsite.endpoint.value.(routingRules := normalized.text)));
        instance.obj := instance.obj.(spec := instance.obj.spec.(website := Some(desiredWebsite)));
      }
      assert desiredWebsite == NormalWebsite(cfg.floats, desired) && Normalizes(cfg.floats, desired);
      if currentWebsite != desiredWebsite {
        err := UpdateBucketWebsite(o, bucket, desiredWebsite, true);
      } else {
        WebsitePresentUsable(cfg.floats, seen.website, desired);
        StageIdle(cfg, WebsiteHosting, o, s, s, env.LastEvent());
        return None;
      }
    }

    /** The four cases of the website stage, once the current website has been read. */
    method CompareWebsite(instance: Instance, ghost seen: Bucket, current: Option<Website>)
      returns (err: Option<RetryError>)
      requires Ready(instance.obj) && current == ReadWebsite(cfg.floats, seen.website)
      requires env.state.calm ==> seen == env.state.buckets[instance.obj.spec.bucket]
      requires StageOf(env.LastEvent()) == Some(WebsiteHosting)
      modifies env`state, env`trace, instance
      ensures env.Valid(cfg) && |old(env.trace)| <= |env.trace|
      ensures SameButWebsite(cfg, old(instance.obj), instance.obj)
      ensures StageDone(cfg, WebsiteHosting, old(instance.obj), old(env.state), env.state, env.LastEvent(), err)
    {
      ghost var o := instance.obj;
      var bucket := instance.obj.spec.bucket;
      var desired := instance.obj.spec.website;
      if current.None? && desired.None? {
        StageIdle(cfg, WebsiteHosting, o, env.state, env.state, env.LastEvent());
        return None;
      } else if current.None? && desired.Some? {
        err := UpdateBucketWebsite(o, bucket, desired.value, false);
      } else if current.Some? && desired.None? {
        DeleteWebsiteRight(cfg, o, seen);
        err := StageChange(o, bucket, DeleteWebsite);
      } else {
        err := UpdateChangedWebsite(instance, seen, current.value, desired.value);
      }
    }

    method ReconcileBucketWebsite(instance: Instance) returns (err: Option<RetryError>)
      requires Ready(instance.obj)
      modifies env`state, env`trace, instance
      ensures env.Valid(cfg) && |old(env.trace)| < |env.trace|
      ensures SameButWebsite(cfg, old(instance.obj), instance.obj)
      ensures StageDone(cfg, WebsiteHosting, old(instance.obj), old(env.state), env.state, env.LastEvent(), err)
    {
      ghost var o, s := instance.obj, env.state;
      var current, readErr, seen := ReadBucketWebsite(o, instance.obj.spec.bucket);
      ghost var u := env.state;
      if readErr.Some? {
        StageUnread(cfg, WebsiteHosting, o, seen, s, u, env.LastEvent(), readErr);
        return readErr;
      }
      err := CompareWebsite(instance, seen, current);
      StageAfterRead(cfg, WebsiteHosting, o, s, u, env.state, env.LastEvent(), err);
    }

    // -------------------------------------------------------------- ACL

    method UpdateInstance(instance: Instance) returns (err: Option<RetryError>)
      requires env.Valid(cfg) && UpdateAllowed(cfg, env.state, instance.obj) && !instance.obj.deleting
      modifies env`state, env`trace, instance
      ensures env.Valid(cfg) && |old(env.trace)| < |env.trace|
      ensures env.state.last.None? && env.state.sent == old(env.state).sent
      ensures env.state.calm ==> old(env.state).calm && env.state.buckets == old(env.state).buckets
      ensures env.LastEvent().call == Protocol.Update(old(instance.obj))
      ensures env.LastEvent().pre.last == old(env.state).last
      ensures err.None? ==>
                && instance.obj == old(instance.obj).(version := old(instance.obj).version + 1)
                && env.state.stored == env.state.copy == Some(instance.obj)
      ensures err.Some? ==> !err.value.retryable && env.LastEvent().reply.Failure?
    {
      var ok := env.Update(cfg, instance);
      err := if ok then None else Some(RetryError(false));
    }

    method ReconcileBucketAcl(instance: Instance) returns (err: Option<RetryError>)
      requires Ready(instance.obj)
      modifies env`state, env`trace, instance
      ensures env.Valid(cfg) && |old(env.trace)| <= |env.trace|
      ensures AclDone(cfg, old(instance.obj), instance.obj, old(env.state), env.state, env.LastEvent(), err)
      ensures old(instance.obj).status.acl == DesiredAcl(old(instance.obj).spec) ==> env.trace == old(env.trace)
    {
      var bucket := instance.obj.spec.bucket;
      var desiredAcl := DesiredAcl(instance.obj.spec);
      var currentAcl := instance.obj.status.acl;
      if env.state.calm { TouchesNothing(Acl, bucket, env.state.buckets); }
      if desiredAcl == currentAcl { return None; }
      err := Change(instance.obj, bucket, PutAcl(desiredAcl), {NoSuchBucket});
      if err.Some? { return; }
      instance.obj := instance.obj.(status := instance.obj.status.(acl := desiredAcl));
      err := UpdateInstance(instance);
    }

    // -------------------------------------------------------------- the eight stages in order

    method ReconcileBucket(instance: Instance) returns (err: Option<RetryError>)
      requires Ready(instance.obj) && env.state.sent == {}
      modifies env`state, env`trace, instance
      ensures env.Valid(cfg) && |old(env.trace)| < |env.trace|
      ensures BucketDone(cfg, old(instance.obj), old(env.state), env.state, env.LastEvent(), err)
    {
      ghost var o, s := instance.obj, env.state;
      TrackStart(cfg, o, s);
      err := ReconcileBucketTags(instance);
      StageAdvance(cfg, 0, o, o, s, s, env.state, env.LastEvent(), err);
      if err.Some? { return; }
      ghost var u := env.state;
      err := ReconcileBucketPolicy(instance);
      StageAdvance(cfg, 1, o, o, s, u, env.state, env.LastEvent(), err);
      if err.Some? { return; }
      err := ReconcileSecurity(instance, s);
    }

    /** Stages three and four; `s` is the state before the first stage. */
    method ReconcileSecurity(instance: Instance, ghost s: State) returns (err: Option<RetryError>)
      requires env.Valid(cfg) && OnTrack(cfg, 2, instance.obj, instance.obj, s, env.state)
      modifies env`state, env`trace, instance
      ensures env.Valid(cfg) && |old(env.trace)| <= |env.trace|
      ensures BucketDone(cfg, old(instance.obj), s, env.state, env.LastEvent(), err)
    {
      ghost var o := instance.obj;
      ghost var u := env.state;
      err := ReconcileBucketAcl(instance);
      ghost var p := instance.obj;
      AclAdvance(cfg, o, p, s, u, env.state, env.LastEvent(), err);
      if err.Some? { return; }
      u := env.state;
      err := ReconcileBucketEncryption(instance);
      StageAdvance(cfg, 3, o, p, s, u, env.state, env.LastEvent(), err);
      if err.Some? { return; }
      err := ReconcileStorage(instance, o, s);
    }

    /** Stages five and six; `o` is the object before the first stage. */
    method ReconcileStorage(instance: Instance, ghost o: Object, ghost s: State) returns (err: Option<RetryError>)
      requires env.Valid(cfg) && OnTrack(cfg, 4, o, instance.obj, s, env.state)
      modifies env`state, env`trace, instance
      ensures env.Valid(cfg) && |old(env.trace)| <= |env.trace|
      ensures BucketDone(cfg, o, s, env.state, env.LastEvent(), err)
    {
      ghost var p := instance.obj;
      ghost var u := env.state;
      err := ReconcileBucketVersioning(instance);
      StageAdvance(cfg, 4, o, p, s, u, env.state, env.LastEvent(), err);
      if err.Some? { return; }
      u := env.state;
      err := ReconcileBucketLogging(instance);
      StageAdvance(cfg, 5, o, p, s, u, env.state, env.LastEvent(), err);
      if err.Some? { return; }
      err := ReconcileHosting(instance, o, s);
    }

    /** Stages seven and eight. */
    method ReconcileHosting(instance: Instance, ghost o: Object, ghost s: State) returns (err: Option<RetryError>)
      requires env.Valid(cfg) && OnTrack(cfg, 6, o, instance.obj, s, env.state)
      modifies env`state, env`trace, instance
      ensures env.Valid(cfg) && |old(env.trace)| <= |env.trace|
      ensures BucketDone(cfg, o, s, env.state, env.LastEvent(), err)
    {
      ghost var p := instance.obj;
      ghost var u := env.state;
      err := ReconcileBucketWebsite(instance);
      StageAdvance(cfg, 6, o, p, s, u, env.state, env.LastEvent(), err);
      if err.Some? { return; }
      u := env.state;
      err := ReconcileBucketCors(instance, p);
      StageAdvance(cfg, 7, o, p, s, u, env.state, env.LastEvent(), err);
    }

    // -------------------------------------------------------------- existence and ownership

    method CheckBucketExists(instance: Instance) returns (found: bool, err: Option<RetryError>)
      requires env.Valid(cfg) && Fetched(cfg, env.state, instance.obj)
      modifies env`state, env`trace
      ensures env.Valid(cfg) && |old(env.trace)| < |env.trace| && Fetched(cfg, env.state, instance.obj)
      ensures Kept(old(env.state), env.state) && StageOf(env.LastEvent()).None? && env.LastEvent().call.Api?
      ensures err.None? && env.state.calm ==> (found <==> instance.obj.spec.bucket in env.state.buckets)
      ensures err.Some? ==> CallFailed(env.LastEvent(), env.state, err.value)
    {
      var reply := env.Send(cfg, Head(instance.obj.spec.bucket));
      if reply.Failure? {
        if reply.code == NoSuchBucket { return false, Some(RetryError(true)); }
        if reply.code.HttpStatus() == 404 { return false, None; }
        return false, Some(RetryError(false));
      }
      return true, None;
    }

    method CreateBucket(instance: Instance) returns (err: Option<RetryError>)
      requires env.Valid(cfg) && Fetched(cfg, env.state, instance.obj)
      requires env.state.calm ==> instance.obj.spec.bucket !in env.state.buckets
      modifies env`state, env`trace, instance
      ensures env.Valid(cfg) && !Owes(env.state) && |old(env.trace)| < |env.trace|
      ensures env.state.calm ==> old(env.state).calm
      ensures err.None? ==>
                var o := instance.obj;
                && Managing(cfg, env.state, o) && o.spec == old(instance.obj).spec && env.state.sent == {}
                && o.status == Status(ArnOf(cfg, o.spec), RegionOf(cfg, o.spec), DesiredAcl(o.spec))
                && (env.state.calm ==> env.state.buckets == Base(cfg, old(instance.obj), old(env.state).buckets))
      ensures err.Some? ==>
                && CallFailed(env.LastEvent(), env.state, err.value) && StageOf(env.LastEvent()).None?
                && AfterMarking(env.LastEvent())
                && (env.state.calm ==>
                      Untouched(old(instance.obj).spec.bucket, old(env.state).buckets, env.state.buckets))
    {
      var bucket := instance.obj.spec.bucket;
      var bucketArn := ArnOf(cfg, instance.obj.spec);
      var region := RegionOf(cfg, instance.obj.spec);
      var bucketAcl := DesiredAcl(instance.obj.spec);
      var reply := env.Send(cfg, Create(bucket, bucketAcl, region));
      if reply.Failure? {
        return Some(RetryError(reply.code == OperationAborted));
      }
      instance.obj := instance.obj.(status := Status(bucketArn, region, bucketAcl));
      err := UpdateInstance(instance);
    }

    method AcquireBucketOwnership(instance: Instance) returns (err: Option<RetryError>)
      requires env.Valid(cfg) && Fetched(cfg, env.state, instance.obj)
      requires env.state.calm ==> instance.obj.spec.bucket in env.state.buckets
      requires instance.obj.status.arn == "" && instance.obj.spec.ownershipStrategy == Acquire
      modifies env`state, env`trace, instance
      ensures env.Valid(cfg) && !Owes(env.state) && |old(env.trace)| < |env.trace|
      ensures env.state.calm ==> old(env.state).calm && env.state.buckets == old(env.state).buckets
      ensures err.None? ==>
                var o, was := instance.obj, old(instance.obj);
                && Managing(cfg, env.state, o) && o.spec == was.spec && env.state.sent == {}
                && o.status == was.status.(arn := ArnOf(cfg, o.spec), location := o.status.location)
                && (env.state.calm ==>
                      o.status.location == env.state.buckets[o.spec.bucket].location.GetOr(was.status.location))
      ensures err.Some? ==>
                && StageOf(env.LastEvent()).None? && AfterMarking(env.LastEvent())
                && (|| CallFailed(env.LastEvent(), env.state, err.value)
                    || (&& !err.value.retryable
                        && (env.state.calm ==> Refused(cfg, old(env.state).buckets, old(instance.obj)))))
    {
      var bucket := instance.obj.spec.bucket;
      var bucketArn := ArnOf(cfg, instance.obj.spec);
      var region := RegionOf(cfg, instance.obj.spec);
      var reply := env.Send(cfg, Locate(bucket));
      if reply.Failure? {
        return Some(RetryError(reply.code == NoSuchBucket));
      }
      if reply.constraint.Some? {
        if region != reply.constraint.value { return Some(RetryError(false)); }
        instance.obj := instance.obj.(status := instance.obj.status.(location := reply.constraint.value));
      }
      instance.obj := instance.obj.(status := instance.obj.status.(arn := bucketArn));
      err := UpdateInstance(instance);
    }

    method ReconcileInstance(instance: Instance) returns (err: Option<RetryError>)
      requires env.Valid(cfg) && Fetched(cfg, env.state, instance.obj)
      modifies env`state, env`trace, instance
      ensures env.Valid(cfg) && !Owes(env.state) && |old(env.trace)| < |env.trace|
      ensures env.state.calm ==> old(env.state).calm
      ensures err.None? ==> Repaired(cfg, old(instance.obj), old(env.state).buckets, env.state)
      ensures err.Some? ==>
                Excused(cfg, old(instance.obj), old(env.state).buckets, env.state, env.LastEvent(), err.value)
    {
      ghost var o, bs := instance.obj, env.state.buckets;
      var bucketExists, checkErr := CheckBucketExists(instance);
      if checkErr.Some? { return checkErr; }
      if !bucketExists {
        err := CreateBucket(instance);
        if err.Some? { return; }
      }
      // Created or acquired by the operator?
      if instance.obj.status.arn == "" {
        if instance.obj.spec.ownershipStrategy == Acquire {
          err := AcquireBucketOwnership(instance);
          if err.Some? { return; }
        } else {
          return Some(RetryError(false));
        }
      }
      ghost var p, u := instance.obj, env.state;
      err := ReconcileBucket(instance);
      if err.None? {
        RepairedBy(cfg, o, bs, p, env.state.copy.value, u, env.state);
      }
    }

    // -------------------------------------------------------------- deletion

    method DeleteBucketObjects(ghost o: Object, bucket: string) returns (err: Option<RetryError>)
      requires env.Valid(cfg) && env.state.copy == Some(o) && Permitted(cfg, env.state, Empty(bucket))
      modifies env`state, env`trace
      ensures env.Valid(cfg) && env.state.copy == Some(o) && !Owes(env.state) && |old(env.trace)| < |env.trace|
      ensures env.state.calm ==> old(env.state).calm
      ensures err.None? && env.state.calm ==> bucket in env.state.buckets && !env.state.buckets[bucket].hasObjects
      ensures err.Some? ==> env.LastEvent().call.Api? && CallFailed(env.LastEvent(), env.state, err.value)
    {
      var reply := env.Send(cfg, Empty(bucket));
      err := if reply.Failure? then Some(RetryError(false)) else None;
    }

    method DeleteBucket(instance: Instance) returns (err: Option<RetryError>)
      requires env.Valid(cfg) && env.state.copy == Some(instance.obj) && Dying(instance.obj) && !Owes(env.state)
      modifies env`state, env`trace
      ensures env.Valid(cfg) && env.state.copy == old(env.state).copy && !Owes(env.state)
      ensures |old(env.trace)| <= |env.trace|
      ensures (var o := instance.obj;
               o.spec.deleteStrategy == Skip || o.status.arn == "" || ArnResource(o.status.arn).None?) ==>
                err.None? && env.trace == old(env.trace) && env.state == old(env.state)
      ensures err.None? ==> MayRelease(env.state, instance.obj)
      ensures err.Some? ==>
                && env.LastEvent().call.Api? && Blames(env.LastEvent(), err.value)
                && (env.state.calm ==> Faulted(env.LastEvent()) || Blocked(old(env.state).buckets, instance.obj))
    {
      if instance.obj.spec.deleteStrategy == Skip { return None; }
      var bucketArn := instance.obj.status.arn;
      if bucketArn == "" { return None; }
      var parsed := ArnResource(bucketArn);
      if parsed.None? { return None; }
      var bucket := parsed.value;
      var reply := env.Send(cfg, Request.Delete(bucket));
      if reply.Failure? {
        if reply.code == NoSuchBucket { return None; }
        if reply.code == BucketNotEmpty && instance.obj.spec.deleteStrategy == Force {
          err := DeleteBucketObjects(instance.obj, bucket);
          if err.Some? { return; }
          reply := env.Send(cfg, Request.Delete(bucket));
          if reply.Failure? { return Some(RetryError(false)); }
        } else {
          return Some(RetryError(false));
        }
      }
      return None;
    }

    // -------------------------------------------------------------- the pass

    method HandleRetryError(err: RetryError) returns (result: Result)
      ensures result == Failed(err.retryable)
    {
      result := Failed(err.retryable);
    }

    /** Marks a live object with the finalizer, if it is not marked yet. */
    method AddFinalizer(instance: Instance) returns (ok: bool)
      requires env.Valid(cfg) && env.state.copy == Some(instance.obj) && !instance.obj.deleting && env.state.last.None?
      requires StageOf(env.LastEvent()).None?
      modifies env`state, env`trace, instance
      ensures env.Valid(cfg) && env.state.last.None? && StageOf(env.LastEvent()).None?
      ensures env.state.sent == old(env.state).sent
      ensures env.state.calm ==> old(env.state).calm && env.state.buckets == old(env.state).buckets
      ensures ok ==>
                && env.state.copy == Some(instance.obj)
                && FINALIZER in instance.obj.finalizers && !instance.obj.deleting
                && instance.obj.spec == old(instance.obj).spec && instance.obj.status == old(instance.obj).status
      ensures !ok ==> MarkingFailed(env.LastEvent())
    {
      var marked := ContainsString(instance.obj.finalizers, FINALIZER);
      if marked { return true; }
      instance.obj := instance.obj.(finalizers := instance.obj.finalizers + [FINALIZER]);
      ok := env.Update(cfg, instance);
    }

    method ReconcileLive(instance: Instance) returns (result: Result)
      requires env.Valid(cfg) && env.state.copy == Some(instance.obj) && !instance.obj.deleting && env.state.last.None?
      requires StageOf(env.LastEvent()).None? && env.state.sent == {}
      modifies env`state, env`trace, instance
      ensures env.Valid(cfg) && !Owes(env.state)
      ensures Reconciliation(cfg, old(instance.obj), old(env.state).buckets, env.state, env.LastEvent(), result)
    {
      var ok := AddFinalizer(instance);
      if !ok { return Requeued; }
      var complaint := Validate(cfg, instance.obj);
      if complaint.Some? {
        result := HandleRetryError(RetryError(false));
        return;
      }
      var err := ReconcileInstance(instance);
      if err.Some? {
        result := HandleRetryError(err.value);
        return;
      }
      return Done;
    }

    /** Takes the finalizer off an object that may be let go. */
    method RemoveFinalizer(instance: Instance) returns (ok: bool)
      requires env.Valid(cfg) && env.state.copy == Some(instance.obj) && Dying(instance.obj) && !Owes(env.state)
      requires MayRelease(env.state, instance.obj)
      modifies env`state, env`trace, instance
      ensures env.Valid(cfg) && !Owes(env.state)
      ensures ok ==> env.state.stored.None? || FINALIZER !in env.state.stored.value.finalizers
      ensures !ok ==> env.LastEvent().call.Update? && env.LastEvent().reply.Failure?
    {
      var finalizers := RemoveString(instance.obj.finalizers, FINALIZER);
      instance.obj := instance.obj.(finalizers := finalizers);
      ok := env.Update(cfg, instance);
    }

    method ReconcileDeleted(instance: Instance) returns (result: Result)
      requires env.Valid(cfg) && env.state.copy == Some(instance.obj) && instance.obj.deleting && env.state.last.None?
      requires env.state.stored == Some(instance.obj)
      modifies env`state, env`trace, instance
      ensures env.Valid(cfg) && !Owes(env.state)
      ensures Deletion(old(instance.obj), old(env.state).buckets, env.state, env.LastEvent(), result)
    {
      var marked := ContainsString(instance.obj.finalizers, FINALIZER);
      if marked {
        var err := DeleteBucket(instance);
        if err.Some? {
          result := HandleRetryError(err.value);
          return;
        }
        var ok := RemoveFinalizer(instance);
        if !ok { return Requeued; }
      }
      return Done;
    }

    method Reconcile() returns (result: Result)
      modifies env
      ensures PassSpec(cfg, Pass(old(env.state), env.trace, env.state, result))
    {
      var found, ok := env.Get(cfg);
      if !ok { return Failed(false); }
      if found.None? { return Done; }
      var instance := new Instance(found.value);
      if !instance.obj.deleting {
        result := ReconcileLive(instance);
      } else {
        result := ReconcileDeleted(instance);
      }
    }
  }
}
