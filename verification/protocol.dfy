/**
  The operator and its surroundings as a state machine.  A state is the stored object and the S3
  account, together with what the operator knows: the object as it last read it, and its last S3
  call.  An event is one call, or something that a user or an outsider does, with the states before
  and after it.  Users and outsiders may act between any two calls; any call of the operator may
  fail, and a failed call may still have been carried out.  The operator may start over with a Get
  at any time, as it does after a crash.
 */
module Protocol {
  import opened Wrappers
  import opened Names
  import opened NormalizeJson
  import opened Finalizers
  import opened Tags
  import opened Api
  import opened Features

  const FINALIZER := "delete-bucket.finalizers.aws.grepplabs.com"

  datatype Exchange = Exchange(req: Request, reply: Reply)

  /**
    `copy` is the object as the operator last read or stored it, `last` its last S3 call since then.
    `calm` says that no outsider has touched S3 since the pass began with reading the object, and
    `sent` for which features the pass has sent a change.
   */
  datatype State = State(stored: Option<Object>, buckets: Buckets, copy: Option<Object>, last: Option<Exchange>,
                         calm: bool, sent: set<Feature>)

  datatype Call =
    | Get
    | Api(req: Request)
    | Update(obj: Object)
    | UserEdit(spec: Spec, finalizers: seq<string>)
    | UserDelete
    | OutsiderSet(name: string, bucket: Bucket)
    | OutsiderRemove(name: string)
  {
    predicate ByOperator() { Get? || Api? || Update? }
  }

  datatype Event = Event(call: Call, reply: Reply, pre: State, post: State)

  // ---------------------------------------------------------------- validation

  function ArnOf(cfg: Config, spec: Spec): string { BucketArn(cfg.partition, spec.bucket) }

  function RegionOf(cfg: Config, spec: Spec): string { if spec.region != "" then spec.region else cfg.region }

  datatype Complaint =
    | BadBucketName | NoLoggingTarget | WebsiteNotOneSided | NoCorsRules | BucketNameChanged | BucketRegionChanged

  /** `validateInstance`: the first complaint about an object, if there is one. */
  function Validate(cfg: Config, o: Object): Option<Complaint> {
    if !ValidBucketName(o.spec.bucket, RegionOf(cfg, o.spec)) then Some(BadBucketName)
    else if o.spec.logging.Some? && o.spec.logging.value.targetBucket == "" then Some(NoLoggingTarget)
    else if o.spec.website.Some? && o.spec.website.value.redirect.Some? && o.spec.website.value.endpoint.Some? then
      Some(WebsiteNotOneSided)
    else if o.spec.website.Some? && o.spec.website.value.redirect.None? && o.spec.website.value.endpoint.None? then
      Some(WebsiteNotOneSided)
    else if o.spec.cors.Some? && o.spec.cors.value == [] then Some(NoCorsRules)
    else if o.status.arn != "" && o.status.arn != ArnOf(cfg, o.spec) then Some(BucketNameChanged)
    else if o.status.location != "" && o.status.location != RegionOf(cfg, o.spec) then Some(BucketRegionChanged)
    else None
  }

  /**
    What the six checks come to.  The recorded ARN, if there is one, was printed for the bucket
    `recorded`: an object is valid only as long as its spec names that very bucket and region,
    the region of the configuration when the spec names none.
   */
  lemma ValidObjects(cfg: Config, o: Object, recorded: string)
    requires o.status.arn == "" || o.status.arn == "arn:" + cfg.partition + ":s3:::" + recorded
    ensures var region := if o.spec.region == "" then cfg.region else o.spec.region;
            Validate(cfg, o).None? <==>
              && ValidBucketName(o.spec.bucket, region)
              && (o.spec.logging.Some? ==> o.spec.logging.value.targetBucket != "")
              && (o.spec.website.Some? ==>
                    o.spec.website.value.endpoint.Some? != o.spec.website.value.redirect.Some?)
              && o.spec.cors != Some([])
              && (o.status.arn == "" || o.spec.bucket == recorded)
              && (o.status.location == "" || o.status.location == region)
  {
    ArnSpelled(cfg.partition, recorded);
    if o.status.arn == ArnOf(cfg, o.spec) {
      ArnInjective(cfg.partition, o.spec.bucket, recorded);
    }
  }

  /** Not being deleted, marked with the finalizer, and valid. */
  predicate Live(cfg: Config, o: Object) { !o.deleting && FINALIZER in o.finalizers && Validate(cfg, o).None? }

  /** The recorded ARN is that of the bucket in the spec. */
  predicate Owned(cfg: Config, o: Object) { o.status.arn == ArnOf(cfg, o.spec) }

  predicate Dying(o: Object) { o.deleting && FINALIZER in o.finalizers }

  // ---------------------------------------------------------------- what the operator does when

  /** What the change writes is what the spec asks for. */
  predicate AsSpecified(cfg: Config, o: Object, c: Change) {
    var fc, spec := cfg.floats, o.spec;
    match c
    case PutTags(ts) => spec.tags != map[] && Lists(ts, Visible(spec.tags))
    case DeleteTags => true
    case PutPolicy(text) => text == Trim(spec.policy) && Denotes(fc, spec.policy)
    case DeletePolicy => spec.policy == ""
    case PutAcl(acl) => acl == DesiredAcl(spec) && o.status.acl != acl
    case PutEncryption(rules) => spec.sse.Some? && rules == WriteSse(spec.sse.value)
    case DeleteEncryption => spec.sse.None?
    case PutVersioning(status) => status == WriteVersioning(DesiredVersioning(spec))
    case PutLogging(target) => target == WriteLogging(spec.logging)
    case PutWebsite(site) =>
      && spec.website.Some?
      && (SiteFor(fc, spec.website.value, false) == Some(site) || SiteFor(fc, spec.website.value, true) == Some(site))
    case DeleteWebsite => spec.website.None?
    case PutCors(rules) => spec.cors.Some? && rules == WriteCors(spec.cors.value)
    case DeleteCors => spec.cors.None?
  }

  /** Some current pair is missing from the desired tags or changed there. */
  predicate LosesTag(current: TagMap, desired: TagMap) {
    exists k :: k in current && !(k in desired && desired[k] == current[k])
  }

  /** Something is there to be repaired; the ACL goes by the status alone. */
  predicate Needed(cfg: Config, o: Object, b: Bucket, c: Change) {
    match c
    case PutTags(_) => ToMap(b.tagSet) != o.spec.tags && !LosesTag(ToMap(b.tagSet), o.spec.tags)
    case DeleteTags => LosesTag(ToMap(b.tagSet), o.spec.tags)
    case PutAcl(_) => true
    case PutWebsite(site) =>
      && !Agrees(cfg.floats, WebsiteHosting, o.spec, b)
      && (o.spec.website.Some? ==>
            SiteFor(cfg.floats, o.spec.website.value, WebsitePresent(cfg.floats, b)) == Some(site))
    case _ => !Agrees(cfg.floats, c.Feature(), o.spec, b)
  }

  predicate Wanted(cfg: Config, o: Object, b: Bucket, c: Change) { AsSpecified(cfg, o, c) && Needed(cfg, o, b, c) }

  /** Calls whose effect the status has to record. */
  predicate Recorded(req: Request) { req.Create? || (req.Configure? && req.change.PutAcl?) }

  /** The last call was a successful create or ACL change: it is to be recorded next. */
  predicate Owes(s: State) { s.last.Some? && Recorded(s.last.value.req) && s.last.value.reply.Ack? }

  predicate LastCreated(s: State, b: string) { Owes(s) && s.last.value.req.Create? && s.last.value.req.bucket == b }

  /** What the object as read entitles the operator to. */
  predicate Authorized(cfg: Config, o: Object, req: Request) {
    match req
    case Create(b, acl, region) =>
      Live(cfg, o) && b == o.spec.bucket && acl == DesiredAcl(o.spec) && region == RegionOf(cfg, o.spec)
    case Configure(b, change) => Live(cfg, o) && Owned(cfg, o) && b == o.spec.bucket && AsSpecified(cfg, o, change)
    case Delete(b) =>
      Dying(o) && o.spec.deleteStrategy != Skip && o.status.arn != "" && ArnResource(o.status.arn) == Some(b)
    case Empty(b) =>
      Dying(o) && o.spec.deleteStrategy == Force && o.status.arn != "" && ArnResource(o.status.arn) == Some(b)
    case _ => Live(cfg, o) && req.bucket == o.spec.bucket
  }

  /** What S3 holds gives reason for the request. */
  predicate Warranted(cfg: Config, o: Object, bs: Buckets, req: Request) {
    match req
    case Create(b, _, _) => b !in bs
    case Configure(b, change) => b in bs && Needed(cfg, o, bs[b], change)
    case Empty(b) => b in bs && bs[b].hasObjects
    case _ => true
  }

  predicate Permitted(cfg: Config, s: State, req: Request) {
    && !Owes(s) && s.copy.Some? && Authorized(cfg, s.copy.value, req)
    && (req.Empty? ==> s.last == Some(Exchange(Request.Delete(req.bucket), Failure(BucketNotEmpty))))
    && (s.calm ==> Warranted(cfg, s.copy.value, s.buckets, req))
  }

  predicate AddsFinalizer(o: Object, obj: Object) {
    !o.deleting && FINALIZER !in o.finalizers && obj == o.(finalizers := o.finalizers + [FINALIZER])
  }

  /** The last call created the bucket of the spec, and its ARN, region and ACL are recorded. */
  predicate RecordsCreate(cfg: Config, s: State, o: Object, obj: Object) {
    var b := o.spec.bucket;
    && Live(cfg, o) && LastCreated(s, b)
    && obj == o.(status := Status(ArnOf(cfg, o.spec), RegionOf(cfg, o.spec), DesiredAcl(o.spec)))
    && (s.calm ==> b in s.buckets && s.buckets[b].byOperator && s.buckets[b].acl == DesiredAcl(o.spec))
  }

  /** S3 gave this place for the bucket, and the spec does not disagree. */
  predicate Located(cfg: Config, o: Object, x: Exchange) {
    && x.req == Locate(o.spec.bucket) && x.reply.Location?
    && (x.reply.constraint.Some? ==> x.reply.constraint.value == RegionOf(cfg, o.spec))
  }

  predicate RecordsAcquisition(cfg: Config, s: State, o: Object, obj: Object) {
    var b := o.spec.bucket;
    && Live(cfg, o) && o.status.arn == "" && o.spec.ownershipStrategy == Acquire
    && s.last.Some? && Located(cfg, o, s.last.value)
    && var place := s.last.value.reply.constraint;
       && obj == o.(status := o.status.(arn := ArnOf(cfg, o.spec), location := place.GetOr(o.status.location)))
       && (s.calm ==> b in s.buckets && place == s.buckets[b].location)
  }

  predicate RecordsAcl(cfg: Config, s: State, o: Object, obj: Object) {
    var b := o.spec.bucket;
    && Live(cfg, o) && Owned(cfg, o) && Owes(s) && s.last.value.req == Configure(b, PutAcl(DesiredAcl(o.spec)))
    && obj == o.(status := o.status.(acl := DesiredAcl(o.spec)))
    && (s.calm ==> b in s.buckets && s.buckets[b].acl == DesiredAcl(o.spec))
  }

  /** S3 has just said that the bucket is gone. */
  predicate DeleteAnswered(s: State, b: string) {
    && s.last.Some? && s.last.value.req == Request.Delete(b)
    && (s.last.value.reply == Ack || s.last.value.reply == Failure(NoSuchBucket))
  }

  /** The bucket need not, or can no longer, be deleted. */
  predicate MayRelease(s: State, o: Object) {
    || o.spec.deleteStrategy == Skip
    || o.status.arn == "" || ArnResource(o.status.arn).None?
    || (var b := ArnResource(o.status.arn).value; DeleteAnswered(s, b) && (s.calm ==> b !in s.buckets))
  }

  predicate Releases(s: State, o: Object, obj: Object) {
    Dying(o) && MayRelease(s, o) && obj == o.(finalizers := Without(o.finalizers, FINALIZER))
  }

  /** An update is of one of five kinds. */
  predicate UpdateAllowed(cfg: Config, s: State, obj: Object) {
    s.copy.Some? &&
    var o := s.copy.value;
    if Owes(s) then RecordsCreate(cfg, s, o, obj) || RecordsAcl(cfg, s, o, obj)
    else AddsFinalizer(o, obj) || RecordsAcquisition(cfg, s, o, obj) || Releases(s, o, obj)
  }

  // ---------------------------------------------------------------- what calls do

  predicate SameVersion(s: State, obj: Object) { s.stored.Some? && s.stored.value.version == obj.version }

  /** The API server stores a new version, or drops a deleted object that nothing holds any more. */
  function Persisted(obj: Object): Option<Object> {
    if obj.deleting && obj.finalizers == [] then None else Some(obj.(version := obj.version + 1))
  }

  predicate GetDone(e: Event) {
    && e.post.stored == e.pre.stored && e.post.buckets == e.pre.buckets
    && e.post.last.None? && e.post.calm && e.post.sent == {}
    && ((e.reply.Ack? && e.post.copy == e.pre.stored) || (e.reply.Failure? && e.post.copy.None?))
  }

  /** The features for which changes have been sent, after one more request. */
  function SentWith(sent: set<Feature>, req: Request): set<Feature> {
    if req.Configure? then sent + {req.change.Feature()} else sent
  }

  predicate Truthful(e: Event)
    requires e.call.Api?
  {
    Answers(e.pre.buckets, e.call.req, e.reply)
  }

  predicate ApiDone(e: Event)
    requires e.call.Api?
  {
    var req := e.call.req;
    && e.post == e.pre.(buckets := e.post.buckets, last := Some(Exchange(req, e.reply)),
                        sent := SentWith(e.pre.sent, req))
    && (|| (Truthful(e) && e.post.buckets == Served(e.pre.buckets, req))
        || (&& e.reply.Failure? && MayFailWith(req, e.reply.code)
            && (e.post.buckets == e.pre.buckets || e.post.buckets == Served(e.pre.buckets, req))))
  }

  /** A stale update is refused; after any failure the pass is over. */
  predicate UpdateDone(e: Event)
    requires e.call.Update?
  {
    var obj := e.call.obj;
    && e.post.buckets == e.pre.buckets && e.post.last.None?
    && e.post.calm == e.pre.calm && e.post.sent == e.pre.sent
    && (|| (&& e.reply.Ack? && SameVersion(e.pre, obj)
            && e.post.stored == Persisted(obj) && e.post.copy == Persisted(obj))
        || (&& e.reply.Failure? && e.post.copy.None?
            && (e.post.stored == e.pre.stored || (SameVersion(e.pre, obj) && e.post.stored == Persisted(obj)))))
  }

  /** Users edit the spec and other parties' finalizers, or ask for deletion; outsiders change buckets. */
  predicate OthersDone(e: Event)
    requires !e.call.ByOperator()
  {
    match e.call
    case UserEdit(spec, finalizers) =>
      && e.pre.stored.Some?
      && multiset(finalizers)[FINALIZER] == multiset(e.pre.stored.value.finalizers)[FINALIZER]
      && e.post == e.pre.(stored := Persisted(e.pre.stored.value.(spec := spec, finalizers := finalizers)))
    case UserDelete =>
      && e.pre.stored.Some?
      && e.post == e.pre.(stored := Persisted(e.pre.stored.value.(deleting := true)))
    case OutsiderSet(name, bucket) =>
      && (bucket.byOperator <==> name in e.pre.buckets && e.pre.buckets[name].byOperator)
      && e.post == e.pre.(buckets := e.pre.buckets[name := bucket], calm := false)
    case OutsiderRemove(name) => e.post == e.pre.(buckets := e.pre.buckets - {name}, calm := false)
    case _ => false
  }

  predicate Step(cfg: Config, e: Event) {
    if e.call.Get? then GetDone(e)
    else if e.call.Api? then Permitted(cfg, e.pre, e.call.req) && ApiDone(e)
    else if e.call.Update? then UpdateAllowed(cfg, e.pre, e.call.obj) && UpdateDone(e)
    else OthersDone(e)
  }

  /** A call of the operator that went wrong. */
  predicate Faulted(e: Event) {
    if e.call.Api? then !Truthful(e) else e.call.ByOperator() && e.reply.Failure?
  }

  // ---------------------------------------------------------------- runs

  /** The events of one pass: only the first may be a Get. */
  predicate OneGet(es: seq<Event>) { forall i | 0 < i < |es| :: !es[i].call.Get? }

  predicate Joined(es: seq<Event>, i: int)
    requires 0 <= i < |es| - 1
  {
    es[i].post == es[i + 1].pre
  }

  predicate Linked(s: State, es: seq<Event>, t: State) {
    && (es == [] ==> s == t)
    && (es != [] ==> es[0].pre == s && es[|es| - 1].post == t)
    && forall i {:trigger Joined(es, i)} | 0 <= i < |es| - 1 :: Joined(es, i)
  }

  predicate StepAt(cfg: Config, es: seq<Event>, i: int)
    requires 0 <= i < |es|
  {
    Step(cfg, es[i])
  }

  /** Events from `s` to `t`, each allowed by the protocol. */
  predicate Run(cfg: Config, s: State, es: seq<Event>, t: State) {
    Linked(s, es, t) && forall i {:trigger StepAt(cfg, es, i)} | 0 <= i < |es| :: StepAt(cfg, es, i)
  }

  lemma RunMore(cfg: Config, s: State, es: seq<Event>, t: State, e: Event)
    requires Run(cfg, s, es, t) && e.pre == t && Step(cfg, e)
    ensures Run(cfg, s, es + [e], e.post)
  {
    var fs := es + [e];
    forall i | 0 <= i < |fs| - 1 ensures Joined(fs, i) {
      assert i < |es| - 1 ==> Joined(es, i);
    }
    forall i | 0 <= i < |fs| ensures StepAt(cfg, fs, i) {
      assert i < |es| ==> StepAt(cfg, es, i);
    }
  }

  lemma RunConcat(cfg: Config, s: State, es: seq<Event>, u: State, fs: seq<Event>, t: State)
    requires Run(cfg, s, es, u) && Run(cfg, u, fs, t)
    ensures Run(cfg, s, es + fs, t)
  {
    var gs := es + fs;
    forall i | 0 <= i < |gs| - 1 ensures Joined(gs, i) {
      if i < |es| - 1 { assert Joined(es, i); } else if i >= |es| { assert Joined(fs, i - |es|); }
    }
    forall i | 0 <= i < |gs| ensures StepAt(cfg, gs, i) {
      if i < |es| { assert StepAt(cfg, es, i); } else { assert StepAt(cfg, fs, i - |es|); }
    }
  }

  /** The state before the `n`-th event, or after the last one. */
  function StateAt(s: State, es: seq<Event>, n: nat): State
    requires n <= |es|
  {
    if n == 0 then s else es[n - 1].post
  }

  lemma StateBefore(s: State, es: seq<Event>, t: State, n: nat)
    requires Linked(s, es, t) && n <= |es|
    ensures StateAt(s, es, n) == if n == |es| then t else es[n].pre
  {
    if 0 < n < |es| { assert Joined(es, n - 1); }
  }

  lemma RunFrom(cfg: Config, s: State, es: seq<Event>, t: State, n: nat)
    requires Run(cfg, s, es, t) && n <= |es|
    ensures Run(cfg, StateAt(s, es, n), es[n..], t)
  {
    var fs := es[n..];
    StateBefore(s, es, t, n);
    forall i | 0 <= i < |fs| - 1 ensures Joined(fs, i) { assert Joined(es, n + i); }
    forall i | 0 <= i < |fs| ensures StepAt(cfg, fs, i) { assert StepAt(cfg, es, n + i); }
  }

  lemma RunUpTo(cfg: Config, s: State, es: seq<Event>, t: State, n: nat)
    requires Run(cfg, s, es, t) && n <= |es|
    ensures Run(cfg, s, es[..n], if n == |es| then t else es[n].pre)
  {
    var fs := es[..n];
    StateBefore(s, es, t, n);
    forall i | 0 <= i < |fs| - 1 ensures Joined(fs, i) { assert Joined(es, i); }
    forall i | 0 <= i < |fs| ensures StepAt(cfg, fs, i) { assert StepAt(cfg, es, i); }
  }
}
