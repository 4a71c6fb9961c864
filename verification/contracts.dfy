/** The vocabulary in which the reconciler's methods state what they did. */
module Contracts {
  import opened Wrappers
  import opened Names
  import opened Tags
  import opened JsonLexer
  import opened Api
  import opened Features
  import opened Protocol

  // ---------------------------------------------------------------- single calls

  /** Users and outsiders may have acted; a state that is still calm has the buckets it had. */
  predicate Drifted(s: State, t: State) {
    t.copy == s.copy && t.last == s.last && t.sent == s.sent && (t.calm ==> s.calm && t.buckets == s.buckets)
  }

  /** The operator's calls, if any, only read. */
  predicate Kept(s: State, t: State) {
    t.copy == s.copy && t.sent == s.sent && (t.calm ==> s.calm && t.buckets == s.buckets)
  }

  /** `e` is the call, made after some drift. */
  predicate Sent(req: Request, reply: Reply, s: State, t: State, e: Event) {
    e.call == Protocol.Api(req) && e.reply == reply && e.post == t && Drifted(s, e.pre) && ApiDone(e)
  }

  /** What users and outsiders do takes no permission from the operator. */
  lemma DriftKeepsPermission(cfg: Config, s: State, t: State, req: Request)
    requires Permitted(cfg, s, req) && Drifted(s, t)
    ensures Permitted(cfg, t, req)
  {
  }

  lemma DriftKeepsUpdate(cfg: Config, s: State, t: State, obj: Object)
    requires UpdateAllowed(cfg, s, obj) && Drifted(s, t)
    ensures UpdateAllowed(cfg, t, obj)
  {
  }

  /** `awsclient.RetryError`, without its text. */
  datatype RetryError = RetryError(retryable: bool)

  function RetryCodes(change: Change): set<ErrorCode> {
    if change.Feature() == Tagging then {NoSuchBucket, OperationAborted} else {NoSuchBucket}
  }

  /** Which failures of a request are reported as worth a retry. */
  predicate Retryable(req: Request, code: ErrorCode) {
    match req
    case Head(_) => code == NoSuchBucket
    case Locate(_) => code == NoSuchBucket
    case Inspect(_, f) => f != Tagging && code == NoSuchBucket
    case Create(_, _, _) => code == OperationAborted
    case Configure(_, change) => code in RetryCodes(change)
    case Delete(_) => false
    case Empty(_) => false
  }

  predicate Blames(e: Event, err: RetryError) {
    e.reply.Failure? && (err.retryable <==> e.call.Api? && Retryable(e.call.req, e.reply.code))
  }

  /** The call failed and the error says so; unless outsiders have a hand in it, something went wrong. */
  predicate CallFailed(e: Event, t: State, err: RetryError) {
    Blames(e, err) && (t.calm ==> Faulted(e))
  }

  // ---------------------------------------------------------------- stages

  /** The repair stages in the order they run. */
  const ORDER := [Tagging, Policy, Acl, Encryption, VersioningState, LoggingTarget, WebsiteHosting, Cors]

  function Rank(f: Feature): nat {
    match f
    case Tagging => 0
    case Policy => 1
    case Acl => 2
    case Encryption => 3
    case VersioningState => 4
    case LoggingTarget => 5
    case WebsiteHosting => 6
    case Cors => 7
  }

  lemma RankInOrder(k: nat)
    requires k < |ORDER|
    ensures Rank(ORDER[k]) == k
  {
  }

  lemma OrderByRank(f: Feature)
    ensures Rank(f) < |ORDER| && ORDER[Rank(f)] == f
  {
  }

  /** The stage that a call belongs to; the one update within the stages records an ACL change. */
  function StageOf(e: Event): Option<Feature> {
    match e.call
    case Api(Inspect(_, f)) => Some(f)
    case Api(Configure(_, c)) => Some(c.Feature())
    case Update(_) => if e.pre.last.Some? && e.pre.last.value.req.Configure? then Some(Acl) else None
    case _ => None
  }

  /** The object is the one at hand, is live and owns its bucket. */
  predicate Managing(cfg: Config, s: State, o: Object) {
    s.copy == Some(o) && Live(cfg, o) && Owned(cfg, o) && !Owes(s) && (s.calm ==> o.spec.bucket in s.buckets)
  }

  predicate SameField(f: Feature, a: Bucket, b: Bucket) {
    match f
    case Tagging => a.tagSet == b.tagSet
    case Policy => a.policy == b.policy
    case Acl => a.acl == b.acl
    case Encryption => a.sse == b.sse
    case VersioningState => a.versioning == b.versioning
    case LoggingTarget => a.logging == b.logging
    case WebsiteHosting => a.website == b.website
    case Cors => a.cors == b.cors
  }

  predicate OnlyFeature(f: Feature, a: Bucket, b: Bucket) {
    && a.location == b.location && a.byOperator == b.byOperator && a.hasObjects == b.hasObjects
    && forall g: Feature | g != f :: SameField(g, a, b)
  }

  /** Nothing changed but one feature of one bucket. */
  predicate Touches(f: Feature, name: string, bs: Buckets, cs: Buckets) {
    name in bs && name in cs && cs == bs[name := cs[name]] && OnlyFeature(f, bs[name], cs[name])
  }

  lemma TouchesNothing(f: Feature, name: string, bs: Buckets)
    requires name in bs
    ensures Touches(f, name, bs, bs)
  {
    assert bs == bs[name := bs[name]];
  }

  lemma TouchesTwice(f: Feature, name: string, bs: Buckets, cs: Buckets, ds: Buckets)
    requires Touches(f, name, bs, cs) && Touches(f, name, cs, ds)
    ensures Touches(f, name, bs, ds)
  {
    forall g: Feature | g != f ensures SameField(g, bs[name], ds[name]) {
      assert SameField(g, bs[name], cs[name]) && SameField(g, cs[name], ds[name]);
    }
  }

  lemma ChangeTouches(b: Bucket, c: Change)
    ensures OnlyFeature(c.Feature(), b, ApplyChange(b, c))
  {
  }

  /** A change, carried out or not, touches its feature only. */
  lemma ServedTouches(name: string, change: Change, bs: Buckets, cs: Buckets)
    requires name in bs && (cs == bs || cs == Served(bs, Request.Configure(name, change)))
    ensures Touches(change.Feature(), name, bs, cs)
  {
    ChangeTouches(bs[name], change);
    assert cs == bs[name := cs[name]];
  }

  lemma AgreesDepends(fc: Strconv, f: Feature, spec: Spec, a: Bucket, b: Bucket)
    requires SameField(f, a, b)
    ensures Agrees(fc, f, spec, a) <==> Agrees(fc, f, spec, b)
  {
  }

  /** One feature was read from bucket `seen`, the bucket that is there unless outsiders have been at it. */
  predicate ReadDone(f: Feature, name: string, seen: Bucket, s: State, t: State, e: Event, err: Option<RetryError>) {
    && Kept(s, t) && StageOf(e) == Some(f)
    && (t.calm ==> name in t.buckets && seen == t.buckets[name])
    && (err.Some? ==> CallFailed(e, t, err.value))
  }

  /** One change was sent: it took effect, or it failed and nothing else was touched. */
  predicate Changed(cfg: Config, o: Object, c: Change, s: State, t: State, e: Event, err: Option<RetryError>) {
    var b := o.spec.bucket;
    && t.copy == Some(o) && StageOf(e) == Some(c.Feature()) && t.sent == s.sent + {c.Feature()}
    && t.last.Some? && t.last.value.req == Request.Configure(b, c) && (err.None? <==> t.last.value.reply.Ack?)
    && (t.calm ==>
          && s.calm && Touches(c.Feature(), b, s.buckets, t.buckets)
          && (err.None? ==> t.buckets[b] == ApplyChange(s.buckets[b], c)))
    && (err.Some? ==> CallFailed(e, t, err.value))
  }

  /** The stage has something to write. */
  predicate Lacks(cfg: Config, f: Feature, spec: Spec, b: Bucket) {
    if f == Tagging then ToMap(b.tagSet) != spec.tags else !Agrees(cfg.floats, f, spec, b)
  }

  /** The stage can bring the bucket in line: a website must be there already or be readable once written. */
  predicate Works(cfg: Config, f: Feature, spec: Spec, b: Bucket) {
    f == WebsiteHosting ==>
      Agrees(cfg.floats, f, spec, b) || Readable(cfg.floats, spec, WebsitePresent(cfg.floats, b))
  }

  /** The website that the stage leaves where it found that of `a`. */
  function Rewritten(cfg: Config, spec: Spec, a: Bucket): Option<WireWebsite> {
    if Agrees(cfg.floats, WebsiteHosting, spec, a) then a.website
    else if spec.website.None? then None
    else SiteFor(cfg.floats, spec.website.value, WebsitePresent(cfg.floats, a))
  }

  predicate UsableIn(cfg: Config, f: Feature, spec: Spec, b: Bucket) {
    UsablePart(cfg.floats, f, spec, WebsitePresent(cfg.floats, b))
  }

  /** These depend on the stage's own feature only. */
  lemma StageDepends(cfg: Config, f: Feature, spec: Spec, a: Bucket, b: Bucket)
    requires SameField(f, a, b)
    ensures Lacks(cfg, f, spec, a) <==> Lacks(cfg, f, spec, b)
    ensures Works(cfg, f, spec, a) <==> Works(cfg, f, spec, b)
    ensures UsableIn(cfg, f, spec, a) <==> UsableIn(cfg, f, spec, b)
    ensures f == WebsiteHosting ==> Rewritten(cfg, spec, a) == Rewritten(cfg, spec, b)
  {
    AgreesDepends(cfg.floats, f, spec, a, b);
  }

  /** One way or the other, with or without a website that is there, the JSON can be used. */
  predicate UsableSomehow(cfg: Config, f: Feature, spec: Spec) {
    UsablePart(cfg.floats, f, spec, true) || UsablePart(cfg.floats, f, spec, false)
  }

  predicate UnusableSomehow(cfg: Config, f: Feature, spec: Spec) {
    !UsablePart(cfg.floats, f, spec, true) || !UsablePart(cfg.floats, f, spec, false)
  }

  /** The last call belongs to the stage; it failed, or the JSON that the spec gives for the stage is at fault. */
  predicate StageFailed(cfg: Config, f: Feature, spec: Spec, bs: Buckets, t: State, e: Event, err: RetryError) {
    && StageOf(e) == Some(f)
    && (|| CallFailed(e, t, err)
        || (&& !err.retryable && UnusableSomehow(cfg, f, spec)
            && (t.calm ==> spec.bucket in bs && !UsableIn(cfg, f, spec, bs[spec.bucket]))))
  }

  /** What a repair stage other than the ACL's makes of the bucket, and whether it writes. */
  predicate StageRight(cfg: Config, f: Feature, spec: Spec, s: State, t: State)
    requires spec.bucket in s.buckets && spec.bucket in t.buckets
  {
    var a, b := s.buckets[spec.bucket], t.buckets[spec.bucket];
    && UsableIn(cfg, f, spec, a)
    && (Agrees(cfg.floats, f, spec, b) <==> Works(cfg, f, spec, a))
    && (f == WebsiteHosting ==> b.website == Rewritten(cfg, spec, a))
    && (f in t.sent <==> f in s.sent || Lacks(cfg, f, spec, a))
  }

  /** A repair stage other than the ACL's. */
  predicate StageDone(cfg: Config, f: Feature, o: Object, s: State, t: State, e: Event, err: Option<RetryError>) {
    && t.copy == s.copy && !Owes(t) && (t.sent == s.sent || t.sent == s.sent + {f})
    && (t.calm ==> s.calm && Touches(f, o.spec.bucket, s.buckets, t.buckets))
    && (err.None? ==> UsableSomehow(cfg, f, o.spec) && (t.calm ==> StageRight(cfg, f, o.spec, s, t)))
    && (err.Some? ==> StageFailed(cfg, f, o.spec, s.buckets, t, e, err.value))
  }

  /** Reading before a stage's work changes nothing about what the stage does. */
  lemma StageAfterRead(cfg: Config, f: Feature, o: Object, s: State, u: State, t: State,
                       e: Event, err: Option<RetryError>)
    requires Kept(s, u) && StageDone(cfg, f, o, u, t, e, err)
    ensures StageDone(cfg, f, o, s, t, e, err)
  {
  }

  /** A stage whose read failed. */
  lemma StageUnread(cfg: Config, f: Feature, o: Object, seen: Bucket, s: State, t: State,
                    e: Event, err: Option<RetryError>)
    requires ReadDone(f, o.spec.bucket, seen, s, t, e, err) && err.Some? && !Owes(t)
    ensures StageDone(cfg, f, o, s, t, e, err)
  {
    if t.calm { TouchesNothing(f, o.spec.bucket, t.buckets); }
  }

  /** A stage that finds everything in order. */
  lemma StageIdle(cfg: Config, f: Feature, o: Object, s: State, t: State, e: Event)
    requires f != Acl && Kept(s, t) && !Owes(t) && UsableSomehow(cfg, f, o.spec)
    requires t.calm ==>
               && o.spec.bucket in t.buckets && UsableIn(cfg, f, o.spec, t.buckets[o.spec.bucket])
               && Agrees(cfg.floats, f, o.spec, t.buckets[o.spec.bucket])
               && !Lacks(cfg, f, o.spec, t.buckets[o.spec.bucket])
    ensures StageDone(cfg, f, o, s, t, e, None)
  {
    if t.calm { TouchesNothing(f, o.spec.bucket, t.buckets); }
  }

  /** A stage that cannot use the JSON of the spec. */
  lemma StageRejects(cfg: Config, f: Feature, o: Object, s: State, t: State, e: Event)
    requires Kept(s, t) && !Owes(t) && StageOf(e) == Some(f) && UnusableSomehow(cfg, f, o.spec)
    requires t.calm ==> o.spec.bucket in t.buckets && !UsableIn(cfg, f, o.spec, t.buckets[o.spec.bucket])
    ensures StageDone(cfg, f, o, s, t, e, Some(RetryError(false)))
  {
    if t.calm { TouchesNothing(f, o.spec.bucket, t.buckets); }
  }

  /** What change `c`, sent to bucket `b`, makes of the stage that found bucket `a`. */
  predicate RightChange(cfg: Config, c: Change, spec: Spec, a: Bucket, b: Bucket) {
    var f, after := c.Feature(), ApplyChange(b, c);
    && Lacks(cfg, f, spec, a) && UsableIn(cfg, f, spec, a)
    && (Agrees(cfg.floats, f, spec, after) <==> Works(cfg, f, spec, a))
    && (f == WebsiteHosting ==> after.website == Rewritten(cfg, spec, a))
  }

  lemma PutTagsRight(cfg: Config, tags: seq<Tag>, spec: Spec, a: Bucket, b: Bucket)
    requires Lists(tags, Visible(spec.tags)) && ToMap(a.tagSet) != spec.tags
    ensures RightChange(cfg, PutTags(tags), spec, a, b)
  {
    TagsReadBack(b, tags, spec.tags);
  }

  lemma DeleteWebsiteRight(cfg: Config, o: Object, b: Bucket)
    requires o.spec.website.None? && WebsitePresent(cfg.floats, b)
    ensures UsableSomehow(cfg, WebsiteHosting, o.spec)
    ensures Wanted(cfg, o, b, DeleteWebsite) && RightChange(cfg, DeleteWebsite, o.spec, b, b)
  {
  }

  /** A stage that found state `s` has sent a change, perhaps after another that led to state `u`. */
  lemma StageWrote(cfg: Config, c: Change, o: Object, s: State, u: State, t: State, e: Event, err: Option<RetryError>)
    requires c.Feature() != Acl && Changed(cfg, o, c, u, t, e, err) && UsableSomehow(cfg, c.Feature(), o.spec)
    requires s.copy == Some(o) && (u.sent == s.sent || u.sent == s.sent + {c.Feature()})
    requires u.calm ==>
               && s.calm && Touches(c.Feature(), o.spec.bucket, s.buckets, u.buckets)
               && RightChange(cfg, c, o.spec, s.buckets[o.spec.bucket], u.buckets[o.spec.bucket])
    ensures StageDone(cfg, c.Feature(), o, s, t, e, err)
  {
    if t.calm { TouchesTwice(c.Feature(), o.spec.bucket, s.buckets, u.buckets, t.buckets); }
  }

  /** The ACL stage goes by the status, and records there what it set. */
  predicate AclDone(cfg: Config, o: Object, obj: Object, s: State, t: State, e: Event, err: Option<RetryError>) {
    var want := DesiredAcl(o.spec);
    && !Owes(t) && (t.calm ==> s.calm && Touches(Acl, o.spec.bucket, s.buckets, t.buckets))
    && (o.status.acl != want ==> t.sent == s.sent + {Acl})
    && (o.status.acl == want ==> err.None? && obj == o && t == s)
    && (err.None? ==>
          && Managing(cfg, t, obj) && obj.spec == o.spec && obj.finalizers == o.finalizers
          && obj.status == o.status.(acl := want)
          && (t.calm && o.status.acl != want ==> t.buckets[o.spec.bucket].acl == want))
    && (err.Some? ==> StageFailed(cfg, Acl, o.spec, s.buckets, t, e, err.value))
  }

  /** The in-memory object differs at most in the website's routing rules, put in normal form. */
  predicate SameButWebsite(cfg: Config, o: Object, obj: Object) {
    obj == o || obj == o.(spec := o.spec.(website := DesiredWebsite(cfg.floats, o.spec)))
  }

  // ---------------------------------------------------------------- all stages together

  /**
    What a finished stage has made of bucket `a`; the ACL stage trusts a status that shows the
    desired ACL.
   */
  predicate StageShows(cfg: Config, f: Feature, spec: Spec, shown: string, a: Bucket, b: Bucket) {
    if f == Acl then shown != DesiredAcl(spec) ==> Agrees(cfg.floats, Acl, spec, b)
    else
      && (Agrees(cfg.floats, f, spec, b) <==> Works(cfg, f, spec, a))
      && (f == WebsiteHosting ==> b.website == Rewritten(cfg, spec, a))
  }

  /** A finished stage has written. */
  predicate Due(cfg: Config, f: Feature, spec: Spec, shown: string, a: Bucket) {
    if f == Acl then shown != DesiredAcl(spec) else Lacks(cfg, f, spec, a)
  }

  /** No other bucket changed, nor anything about this one that is not configuration. */
  predicate SameElsewhere(name: string, bs: Buckets, cs: Buckets) {
    && name in bs && name in cs && cs == bs[name := cs[name]]
    && bs[name].location == cs[name].location && bs[name].byOperator == cs[name].byOperator
    && bs[name].hasObjects == cs[name].hasObjects
  }

  /** The first `k` stages are done, and those from the `m`-th on have not touched the bucket. */
  predicate Between(cfg: Config, k: nat, m: nat, spec: Spec, shown: string, bs: Buckets, cs: Buckets) {
    var b := spec.bucket;
    && SameElsewhere(b, bs, cs)
    && (forall j | 0 <= j < k && j < |ORDER| :: StageShows(cfg, ORDER[j], spec, shown, bs[b], cs[b]))
    && (forall j | m <= j < |ORDER| :: SameField(ORDER[j], bs[b], cs[b]))
    && (shown == DesiredAcl(spec) ==> SameField(Acl, bs[b], cs[b]))
  }

  /** The stage of feature `f` failed: all stages before it hold, no later one has touched the bucket. */
  predicate StoppedAt(cfg: Config, f: Feature, spec: Spec, shown: string, bs: Buckets, cs: Buckets) {
    Between(cfg, Rank(f), Rank(f) + 1, spec, shown, bs, cs)
  }

  lemma ShowsKept(cfg: Config, f: Feature, g: Feature, spec: Spec, shown: string, a: Bucket, b: Bucket, c: Bucket)
    requires f != g && StageShows(cfg, g, spec, shown, a, b) && OnlyFeature(f, b, c)
    ensures StageShows(cfg, g, spec, shown, a, c)
  {
    assert SameField(g, b, c);
    AgreesDepends(cfg.floats, g, spec, b, c);
  }

  lemma Progress(cfg: Config, k: nat, spec: Spec, shown: string, bs: Buckets, cs: Buckets, ds: Buckets)
    requires k < |ORDER| && Between(cfg, k, k, spec, shown, bs, cs)
    requires Touches(ORDER[k], spec.bucket, cs, ds)
    requires k == 2 && shown == DesiredAcl(spec) ==> ds == cs
    ensures Between(cfg, k, k + 1, spec, shown, bs, ds)
    ensures StageShows(cfg, ORDER[k], spec, shown, bs[spec.bucket], ds[spec.bucket]) ==>
              Between(cfg, k + 1, k + 1, spec, shown, bs, ds)
  {
    var b := spec.bucket;
    assert ds == bs[b := ds[b]];
    forall j | 0 <= j < k ensures StageShows(cfg, ORDER[j], spec, shown, bs[b], ds[b]) {
      RankInOrder(j);
      RankInOrder(k);
      ShowsKept(cfg, ORDER[k], ORDER[j], spec, shown, bs[b], cs[b], ds[b]);
    }
    forall j | k < j < |ORDER| ensures SameField(ORDER[j], bs[b], ds[b]) {
      RankInOrder(j);
      RankInOrder(k);
      assert SameField(ORDER[j], cs[b], ds[b]);
    }
    if k != 2 {
      RankInOrder(k);
      assert SameField(Acl, cs[b], ds[b]);
    }
  }

  /** The first `k` stages have written exactly where there was something to write, the others not yet. */
  predicate SentSoFar(cfg: Config, k: nat, spec: Spec, shown: string, a: Bucket, sent: set<Feature>) {
    forall f: Feature :: f in sent <==> Rank(f) < k && Due(cfg, f, spec, shown, a)
  }

  lemma SentMore(cfg: Config, k: nat, spec: Spec, shown: string, a: Bucket, sent: set<Feature>, now: set<Feature>)
    requires k < |ORDER| && SentSoFar(cfg, k, spec, shown, a, sent)
    requires now == sent || now == sent + {ORDER[k]}
    requires ORDER[k] in now <==> Due(cfg, ORDER[k], spec, shown, a)
    ensures SentSoFar(cfg, k + 1, spec, shown, a, now)
  {
    RankInOrder(k);
    forall f: Feature ensures f in now <==> Rank(f) < k + 1 && Due(cfg, f, spec, shown, a) {
      if Rank(f) == k { OrderByRank(f); }
    }
  }

  /** What `k` stages have come to in a state that is still calm. */
  predicate CalmTrack(cfg: Config, k: nat, o: Object, s: State, t: State) {
    && s.calm && Between(cfg, k, k, o.spec, o.status.acl, s.buckets, t.buckets)
    && var a := s.buckets[o.spec.bucket];
       && (forall j | 0 <= j < k && j < |ORDER| :: UsableIn(cfg, ORDER[j], o.spec, a))
       && SentSoFar(cfg, k, o.spec, o.status.acl, a, t.sent)
  }

  /** `k` stages after starting from `s` with object `o`, the object being `p` now. */
  predicate OnTrack(cfg: Config, k: nat, o: Object, p: Object, s: State, t: State) {
    && Managing(cfg, t, p) && p.spec == o.spec
    && p.status == (if k <= 2 then o.status else o.status.(acl := DesiredAcl(o.spec)))
    && (forall j | 0 <= j < k && j < |ORDER| :: UsableSomehow(cfg, ORDER[j], o.spec))
    && (t.calm ==> CalmTrack(cfg, k, o, s, t))
  }

  /** The stage that the last call belongs to failed. */
  predicate Stopped(cfg: Config, o: Object, s: State, t: State, e: Event, err: RetryError) {
    && StageOf(e).Some? && StageFailed(cfg, StageOf(e).value, o.spec, s.buckets, t, e, err)
    && (t.calm ==> s.calm && StoppedAt(cfg, StageOf(e).value, o.spec, o.status.acl, s.buckets, t.buckets))
  }

  lemma TrackStart(cfg: Config, o: Object, s: State)
    requires Managing(cfg, s, o) && s.sent == {}
    ensures OnTrack(cfg, 0, o, o, s, s)
  {
    if s.calm { assert s.buckets == s.buckets[o.spec.bucket := s.buckets[o.spec.bucket]]; }
  }

  /** A stage other than the ACL's, as long as no outsider acts. */
  lemma CalmAdvance(cfg: Config, k: nat, o: Object, s: State, u: State, t: State)
    requires k < |ORDER| && k != 2 && CalmTrack(cfg, k, o, s, u)
    requires Touches(ORDER[k], o.spec.bucket, u.buckets, t.buckets)
    requires t.sent == u.sent || t.sent == u.sent + {ORDER[k]}
    ensures StoppedAt(cfg, ORDER[k], o.spec, o.status.acl, s.buckets, t.buckets)
    ensures UsableIn(cfg, ORDER[k], o.spec, u.buckets[o.spec.bucket]) <==>
            UsableIn(cfg, ORDER[k], o.spec, s.buckets[o.spec.bucket])
    ensures StageRight(cfg, ORDER[k], o.spec, u, t) ==> CalmTrack(cfg, k + 1, o, s, t)
  {
    var name := o.spec.bucket;
    RankInOrder(k);
    Progress(cfg, k, o.spec, o.status.acl, s.buckets, u.buckets, t.buckets);
    StageDepends(cfg, ORDER[k], o.spec, s.buckets[name], u.buckets[name]);
    if StageRight(cfg, ORDER[k], o.spec, u, t) {
      SentMore(cfg, k, o.spec, o.status.acl, s.buckets[name], u.sent, t.sent);
    }
  }

  lemma StageAdvance(cfg: Config, k: nat, o: Object, p: Object, s: State, u: State, t: State,
                     e: Event, err: Option<RetryError>)
    requires k < |ORDER| && k != 2 && OnTrack(cfg, k, o, p, s, u)
    requires StageDone(cfg, ORDER[k], p, u, t, e, err)
    ensures err.None? ==> OnTrack(cfg, k + 1, o, p, s, t)
    ensures err.Some? ==> Stopped(cfg, o, s, t, e, err.value)
  {
    if t.calm { CalmAdvance(cfg, k, o, s, u, t); }
  }

  lemma AclAdvance(cfg: Config, o: Object, p: Object, s: State, u: State, t: State, e: Event, err: Option<RetryError>)
    requires OnTrack(cfg, 2, o, o, s, u) && AclDone(cfg, o, p, u, t, e, err)
    ensures err.None? ==> OnTrack(cfg, 3, o, p, s, t)
    ensures err.Some? ==> Stopped(cfg, o, s, t, e, err.value)
  {
    if t.calm {
      Progress(cfg, 2, o.spec, o.status.acl, s.buckets, u.buckets, t.buckets);
      SentMore(cfg, 2, o.spec, o.status.acl, s.buckets[o.spec.bucket], u.sent, t.sent);
    }
  }

  /** The whole repair of a bucket. */
  predicate BucketDone(cfg: Config, o: Object, s: State, t: State, e: Event, err: Option<RetryError>) {
    && !Owes(t)
    && (err.None? ==> t.copy.Some? && OnTrack(cfg, |ORDER|, o, t.copy.value, s, t))
    && (err.Some? ==> Stopped(cfg, o, s, t, e, err.value))
  }

  // ---------------------------------------------------------------- a whole pass

  /** The object at hand is live, nothing is left to be recorded, and no change has been sent yet. */
  predicate Fetched(cfg: Config, s: State, o: Object) { s.copy == Some(o) && Live(cfg, o) && !Owes(s) && s.sent == {} }

  /** An existing bucket that is not recorded and may not be acquired, or lies elsewhere than the spec says. */
  predicate Refused(cfg: Config, bs: Buckets, o: Object) {
    && o.status.arn == "" && o.spec.bucket in bs
    && (o.spec.ownershipStrategy == Acquire ==>
          var place := bs[o.spec.bucket].location;
          place.Some? && place.value != RegionOf(cfg, o.spec))
  }

  /** The recorded bucket has objects, and the strategy is neither to force deletion nor to skip it. */
  predicate Blocked(bs: Buckets, o: Object) {
    && o.spec.deleteStrategy != Force && o.spec.deleteStrategy != Skip
    && o.status.arn != "" && ArnResource(o.status.arn).Some?
    && ArnResource(o.status.arn).value in bs && bs[ArnResource(o.status.arn).value].hasObjects
  }

  /** The buckets that the stages start from: a missing bucket has been created. */
  function Base(cfg: Config, o: Object, bs: Buckets): Buckets {
    if o.spec.bucket in bs then bs else bs[o.spec.bucket := NewBucket(DesiredAcl(o.spec), RegionOf(cfg, o.spec))]
  }

  /** The ACL that the status shows when the stages start. */
  function Shown(o: Object, bs: Buckets): string {
    if o.spec.bucket in bs then o.status.acl else DesiredAcl(o.spec)
  }

  /** Buckets that were there are as they were; `name` may be new. */
  predicate Untouched(name: string, bs: Buckets, cs: Buckets) {
    cs == bs || (name !in bs && name in cs && cs == bs[name := cs[name]])
  }

  /** A call to S3, or the update that records what S3 has answered. */
  predicate AfterMarking(e: Event) { e.call.Api? || (e.call.Update? && e.pre.last.Some?) }

  /** The update that puts the finalizer on has failed. */
  predicate MarkingFailed(e: Event) { e.call.Update? && e.reply.Failure? && e.pre.last.None? }

  predicate Marked(o: Option<Object>) { o.Some? && FINALIZER in o.value.finalizers }

  /**
    A failed repair.  When the last call belongs to a stage, that stage has stopped; when it does
    not, the failure came before the stages and the buckets that were there are as they were.
   */
  predicate Excused(cfg: Config, o: Object, bs: Buckets, t: State, e: Event, err: RetryError) {
    match StageOf(e)
    case Some(f) =>
      && StageFailed(cfg, f, o.spec, Base(cfg, o, bs), t, e, err)
      && (t.calm ==> StoppedAt(cfg, f, o.spec, Shown(o, bs), Base(cfg, o, bs), t.buckets))
    case None =>
      && (CallFailed(e, t, err) || (o.status.arn == "" && !err.retryable && (t.calm ==> Refused(cfg, bs, o))))
      && AfterMarking(e) && (t.calm ==> Untouched(o.spec.bucket, bs, t.buckets))
  }

  /**
    Bucket `b` agrees with the spec in every feature whose stage works on bucket `a`, where the
    stages began; an ACL that the status showed as desired is as it was.
   */
  predicate BucketRepaired(cfg: Config, o: Object, bs: Buckets, b: Bucket) {
    var a := Base(cfg, o, bs)[o.spec.bucket];
    && Usable(cfg.floats, o.spec, WebsitePresent(cfg.floats, a))
    && (forall f: Feature | f != Acl :: Agrees(cfg.floats, f, o.spec, b) <==> Works(cfg, f, o.spec, a))
    && b.website == Rewritten(cfg, o.spec, a)
    && (if Shown(o, bs) == DesiredAcl(o.spec) then b.acl == a.acl else Agrees(cfg.floats, Acl, o.spec, b))
  }

  /** The location in the status after a repair: that of a new or acquired bucket, or what was recorded before. */
  function PlaceOf(cfg: Config, o: Object, bs: Buckets): string {
    if o.spec.bucket !in bs then RegionOf(cfg, o.spec)
    else if o.status.arn == "" then bs[o.spec.bucket].location.GetOr(o.status.location)
    else o.status.location
  }

  /** The bucket of the spec exists, is recorded and repaired, and changes were sent exactly where they were due. */
  predicate Repaired(cfg: Config, o: Object, bs: Buckets, t: State) {
    && t.copy.Some? && Managing(cfg, t, t.copy.value) && t.copy.value.spec == o.spec
    && t.copy.value.status.acl == DesiredAcl(o.spec)
    && UsableSomehow(cfg, Policy, o.spec) && UsableSomehow(cfg, WebsiteHosting, o.spec)
    && (t.calm ==>
          && t.copy.value.status.location == PlaceOf(cfg, o, bs)
          && SameElsewhere(o.spec.bucket, Base(cfg, o, bs), t.buckets)
          && BucketRepaired(cfg, o, bs, t.buckets[o.spec.bucket])
          && SentSoFar(cfg, |ORDER|, o.spec, Shown(o, bs), Base(cfg, o, bs)[o.spec.bucket], t.sent))
  }

  lemma AllStagesShow(cfg: Config, o: Object, bs: Buckets, cs: Buckets)
    requires Between(cfg, |ORDER|, |ORDER|, o.spec, Shown(o, bs), Base(cfg, o, bs), cs)
    requires Usable(cfg.floats, o.spec, WebsitePresent(cfg.floats, Base(cfg, o, bs)[o.spec.bucket]))
    ensures BucketRepaired(cfg, o, bs, cs[o.spec.bucket])
  {
    var a, b := Base(cfg, o, bs)[o.spec.bucket], cs[o.spec.bucket];
    forall f: Feature ensures StageShows(cfg, f, o.spec, Shown(o, bs), a, b) {
      OrderByRank(f);
    }
    assert StageShows(cfg, Acl, o.spec, Shown(o, bs), a, b);
    assert StageShows(cfg, WebsiteHosting, o.spec, Shown(o, bs), a, b);
    forall f: Feature | f != Acl ensures Agrees(cfg.floats, f, o.spec, b) <==> Works(cfg, f, o.spec, a) {
      assert StageShows(cfg, f, o.spec, Shown(o, bs), a, b);
    }
  }

  lemma RepairedBy(cfg: Config, o: Object, bs: Buckets, p: Object, q: Object, u: State, t: State)
    requires OnTrack(cfg, |ORDER|, p, q, u, t) && p.spec == o.spec
    requires t.calm ==> u.buckets == Base(cfg, o, bs) && p.status.acl == Shown(o, bs)
    requires t.calm ==> p.status.location == PlaceOf(cfg, o, bs)
    ensures Repaired(cfg, o, bs, t)
  {
    OrderByRank(Policy);
    OrderByRank(WebsiteHosting);
    if t.calm { AllStagesShow(cfg, o, bs, t.buckets); }
  }

  datatype Result = Done | Requeued | Failed(retryable: bool)

  /** One call of `Reconcile`. */
  datatype Pass = Pass(before: State, events: seq<Event>, after: State, result: Result)

  /** What a pass over an object under deletion comes to. */
  predicate Deletion(o: Object, bs: Buckets, t: State, e: Event, result: Result) {
    match result
    case Done => t.stored.None? || FINALIZER !in t.stored.value.finalizers
    case Requeued => e.call.Update? && e.reply.Failure?
    case Failed(retryable) =>
      e.call.Api? && Blames(e, RetryError(retryable)) && (t.calm ==> Faulted(e) || Blocked(bs, o))
  }

  /** What a pass over any other object comes to. */
  predicate Reconciliation(cfg: Config, o: Object, bs: Buckets, t: State, e: Event, result: Result) {
    match result
    case Done => Repaired(cfg, o, bs, t)
    case Requeued =>
      MarkingFailed(e) && (t.calm ==> Untouched(o.spec.bucket, bs, t.buckets))
    case Failed(retryable) =>
      || Excused(cfg, o, bs, t, e, RetryError(retryable))
      || (&& Validate(cfg, o).Some? && !retryable && StageOf(e).None?
          && Marked(t.copy) && (t.calm ==> Untouched(o.spec.bucket, bs, t.buckets)))
  }

  /** A pass reads the object first; what it comes to is told by its last call. */
  predicate PassSpec(cfg: Config, p: Pass) {
    && Run(cfg, p.before, p.events, p.after) && p.events != [] && p.events[0].call.Get? && OneGet(p.events)
    && !Owes(p.after)
    && var e, bs := p.events[|p.events| - 1], p.before.buckets;
       if p.events[0].reply.Failure? then |p.events| == 1 && p.result == Failed(false)
       else
         match p.before.stored
         case None => |p.events| == 1 && p.result == Done
         case Some(o) =>
           if o.deleting then Deletion(o, bs, p.after, e, p.result)
           else Reconciliation(cfg, o, bs, p.after, e, p.result)
  }
}
