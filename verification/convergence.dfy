/** What a sequence of passes comes to: repair is monotone, faults only delay it, and then nothing is written. */
module Convergence {
  import opened Wrappers
  import opened Names
  import opened NormalizeJson
  import opened Tags
  import opened JsonLexer
  import opened Api
  import opened Features
  import opened Protocol
  import opened Contracts
  import opened Runs
  import opened ShownFeatures

  // ---------------------------------------------------------------- repair is monotone

  const EVERYTHING: set<Feature> := set f: Feature | true

  /** The features of the spec's bucket that differ from the spec; all of them when there is no such bucket. */
  function Pending(cfg: Config, u: State, spec: Spec): set<Feature> {
    if spec.bucket in u.buckets then Differs(cfg.floats, u.buckets[spec.bucket], spec) else EVERYTHING
  }

  /** A wanted change never spoils a feature, not even the deletion of tags that comes before putting them. */
  lemma ChangeNeverSpoils(cfg: Config, o: Object, b: Bucket, c: Change, f: Feature)
    requires Wanted(cfg, o, b, c) && Agrees(cfg.floats, f, o.spec, b)
    ensures Agrees(cfg.floats, f, o.spec, ApplyChange(b, c))
  {
    if f != c.Feature() {
      ChangeTouches(b, c);
      AgreesDepends(cfg.floats, f, o.spec, b, ApplyChange(b, c));
    } else if c.PutTags? {
      TagsReadBack(b, c.tags, o.spec.tags);
    }
  }

  lemma StepMonotone(cfg: Config, e: Event)
    requires Step(cfg, e) && e.call.ByOperator() && Quiet(e.pre)
    requires e.pre.stored.Some? && !e.pre.stored.value.deleting
    ensures Pending(cfg, e.post, e.pre.stored.value.spec) <= Pending(cfg, e.pre, e.pre.stored.value.spec)
  {
    var o := e.pre.stored.value;
    var b := o.spec.bucket;
    if e.call.Api? && e.call.req.Configure? && e.post.buckets != e.pre.buckets {
      forall f | f in Pending(cfg, e.post, o.spec) ensures f in Pending(cfg, e.pre, o.spec) {
        if Agrees(cfg.floats, f, o.spec, e.pre.buckets[b]) {
          ChangeNeverSpoils(cfg, o, e.pre.buckets[b], e.call.req.change, f);
        }
      }
    }
  }

  /** `spec` is stored, with no deletion asked for, and no more than `most` differs from it. */
  predicate Within(cfg: Config, spec: Spec, most: set<Feature>, u: State) {
    && Quiet(u) && u.stored.Some? && u.stored.value.spec == spec && !u.stored.value.deleting
    && Pending(cfg, u, spec) <= most
  }

  lemma WithinStep(cfg: Config, spec: Spec, most: set<Feature>, e: Event)
    requires Step(cfg, e) && e.call.ByOperator() && Within(cfg, spec, most, e.pre)
    ensures Within(cfg, spec, most, e.post)
  {
    StepMonotone(cfg, e);
    QuietStep(cfg, e);
    if e.call.Update? && SameVersion(e.pre, e.call.obj) {
      UserDataUpdate(cfg, e.pre, e.call.obj);
    }
  }

  lemma StaysWithin(cfg: Config, spec: Spec, most: set<Feature>, s: State, es: seq<Event>, t: State)
    requires Run(cfg, s, es, t) && Undisturbed(es) && Within(cfg, spec, most, s)
    ensures Within(cfg, spec, most, t)
    ensures forall i | 0 <= i < |es| :: Within(cfg, spec, most, es[i].pre) && Within(cfg, spec, most, es[i].post)
  {
    forall i | 0 <= i < |es| && Within(cfg, spec, most, es[i].pre) ensures Within(cfg, spec, most, es[i].post) {
      assert StepAt(cfg, es, i);
      WithinStep(cfg, spec, most, es[i]);
    }
    Always(u => Within(cfg, spec, most, u), s, es, t);
  }

  /** While the spec stays, what differs from it never grows, whatever fails, between any two calls. */
  lemma NeverWorse(cfg: Config, s: State, es: seq<Event>, t: State, i: nat, j: nat)
    requires Run(cfg, s, es, t) && Undisturbed(es) && Quiet(s) && i <= j < |es|
    requires s.stored.Some? && !s.stored.value.deleting
    ensures Pending(cfg, es[j].post, s.stored.value.spec) <= Pending(cfg, es[i].pre, s.stored.value.spec)
  {
    var spec := s.stored.value.spec;
    StaysWithin(cfg, spec, EVERYTHING, s, es, t);
    StateBefore(s, es, t, i);
    RunFrom(cfg, s, es, t, i);
    var fs := es[i..];
    assert fs[j - i] == es[j];
    StaysWithin(cfg, spec, Pending(cfg, es[i].pre, spec), es[i].pre, fs, t);
  }

  // ---------------------------------------------------------------- what is written

  /** A change as the spec has it makes the feature agree with the spec. */
  lemma SpecifiedAgrees(cfg: Config, o: Object, b: Bucket, c: Change)
    requires AsSpecified(cfg, o, c) && !c.DeleteTags? && c.Feature() != WebsiteHosting
    ensures Agrees(cfg.floats, c.Feature(), o.spec, ApplyChange(b, c))
  {
    match c
    case PutTags(ts) => TagsReadBack(b, ts, o.spec.tags);
    case PutPolicy(_) => PolicyReadBack(cfg.floats, o.spec.policy);
    case PutEncryption(_) => SseRoundTrip(o.spec.sse.value);
    case PutLogging(_) => LoggingRoundTrip(o.spec.logging);
    case _ =>
  }

  /** Deleting tags leaves exactly those of AWS's own. */
  lemma {:induction false} SystemTagsStay(ts: seq<Tag>)
    ensures forall t :: t in SystemTags(ts) <==> t in ts && "aws:" <= t.key
  {
    if ts != [] {
      SystemTagsStay(ts[1..]);
      assert ts == [ts[0]] + ts[1..];
      forall t ensures t in SystemTags(ts) <==> t in ts && "aws:" <= t.key {}
    }
  }

  /**
    A change that takes effect while no outsider acts is a change of a feature that did not show
    what the spec asks for (the ACL, which is never read, apart), touches that feature alone, and
    makes it show; tags are deleted first when some current one is stale, and then AWS's own stay.
   */
  lemma WritesRepair(cfg: Config, s: State, es: seq<Event>, t: State, i: nat)
    requires Run(cfg, s, es, t) && i < |es| && es[i].pre.calm && es[i].reply.Ack?
    requires es[i].call.Api? && es[i].call.req.Configure?
    ensures var name, c := es[i].call.req.bucket, es[i].call.req.change;
            && es[i].pre.copy.Some? && name in es[i].pre.buckets
            && es[i].post.buckets == es[i].pre.buckets[name := ApplyChange(es[i].pre.buckets[name], c)]
            && var a, b, spec := es[i].pre.buckets[name], es[i].post.buckets[name], es[i].pre.copy.value.spec;
               && OnlyFeature(c.Feature(), a, b)
               && (c.Feature() != Acl && c.Feature() != Tagging ==> !Shows(cfg.floats, c.Feature(), spec, a))
               && (c.Feature() != WebsiteHosting && !c.DeleteTags? ==> Shows(cfg.floats, c.Feature(), spec, b))
               && (c.DeleteTags? ==> forall tag :: tag in b.tagSet <==> tag in a.tagSet && "aws:" <= tag.key)
  {
    assert StepAt(cfg, es, i);
    var name, c := es[i].call.req.bucket, es[i].call.req.change;
    var o, a := es[i].pre.copy.value, es[i].pre.buckets[name];
    ChangeTouches(a, c);
    AgreesMeans(cfg.floats, c.Feature(), o.spec, a);
    if c.DeleteTags? {
      SystemTagsStay(a.tagSet);
    } else if c.Feature() != WebsiteHosting {
      SpecifiedAgrees(cfg, o, a, c);
      AgreesMeans(cfg.floats, c.Feature(), o.spec, ApplyChange(a, c));
    }
  }

  /** Tags are deleted if some current one is stale, and otherwise put at once. */
  lemma StaleTagsFirst(cfg: Config, s: State, es: seq<Event>, t: State, i: nat)
    requires Run(cfg, s, es, t) && i < |es| && es[i].pre.calm && es[i].call.Api?
    requires es[i].call.req.Configure? && es[i].call.req.change.Feature() == Tagging
    ensures es[i].pre.copy.Some? && es[i].call.req.bucket in es[i].pre.buckets
    ensures var tags, current := es[i].pre.copy.value.spec.tags, es[i].pre.buckets[es[i].call.req.bucket].tagSet;
            es[i].call.req.change.DeleteTags? <==>
              exists k, v :: LastTag(current, k, v) && !("aws:" <= k) && !(k in tags && tags[k] == v)
  {
    assert StepAt(cfg, es, i);
    var tags, current := es[i].pre.copy.value.spec.tags, es[i].pre.buckets[es[i].call.req.bucket].tagSet;
    var m := ToMap(current);
    if LosesTag(m, tags) {
      var k :| k in m && !(k in tags && tags[k] == m[k]);
      ToMapIsLast(current, k);
    }
    forall k, v | LastTag(current, k, v) && !("aws:" <= k) ensures k in m && m[k] == v {
      var j :| 0 <= j < |current| && current[j] == Tag(k, v);
      assert current[j] in current;
      ToMapIsLast(current, k);
      LastTagUnique(current, k, v, m[k]);
    }
  }

  // ---------------------------------------------------------------- the start of a pass

  /** The state in which a pass has read the object. */
  function Opened(p: Pass): State
    requires p.events != []
  {
    p.events[0].post
  }

  /** Nobody but the operator acts during the pass. */
  predicate Alone(p: Pass) { Undisturbed(p.events) }

  /** The rest of a pass is a run from a quiet state with the same two stores. */
  lemma PassOpens(cfg: Config, p: Pass)
    requires PassSpec(cfg, p)
    ensures Run(cfg, Opened(p), p.events[1..], p.after) && Quiet(Opened(p))
    ensures Opened(p).stored == p.before.stored && Opened(p).buckets == p.before.buckets
    ensures Opened(p).last.None? && Coherent(Opened(p))
    ensures Alone(p) ==> Undisturbed(p.events[1..])
  {
    assert StepAt(cfg, p.events, 0);
    RunFrom(cfg, p.before, p.events, p.after, 1);
  }

  lemma QuietPass(cfg: Config, p: Pass)
    requires PassSpec(cfg, p) && Alone(p)
    ensures Quiet(p.after)
  {
    PassOpens(cfg, p);
    var es := p.events[1..];
    forall i | 0 <= i < |es| && Quiet(es[i].pre) ensures Quiet(es[i].post) {
      assert StepAt(cfg, es, i);
      QuietStep(cfg, es[i]);
    }
    Always(Quiet, Opened(p), es, p.after);
  }

  // ---------------------------------------------------------------- what a pass relies on

  /** If the status says the bucket has the desired ACL then it has. */
  predicate AclFaithful(u: State) {
    u.stored.Some? ==>
      var o := u.stored.value;
      o.spec.bucket in u.buckets && o.status.acl == DesiredAcl(o.spec) ==>
        u.buckets[o.spec.bucket].acl == DesiredAcl(o.spec)
  }

  /** A valid object, not under deletion, with its ARN recorded and a faithful ACL. */
  predicate Steady(cfg: Config, spec: Spec, u: State) {
    && u.stored.Some? && u.stored.value.spec == spec && !u.stored.value.deleting
    && Validate(cfg, u.stored.value).None? && u.stored.value.status.arn != ""
    && AclFaithful(u)
  }

  lemma SteadyUpdate(cfg: Config, spec: Spec, s: State, obj: Object)
    requires UpdateAllowed(cfg, s, obj) && Quiet(s) && Steady(cfg, spec, s)
    ensures Steady(cfg, spec, s.(stored := Some(obj)))
  {
  }

  lemma SteadyCall(cfg: Config, spec: Spec, e: Event)
    requires e.call.Api? && Permitted(cfg, e.pre, e.call.req) && ApiDone(e) && Quiet(e.pre) && Steady(cfg, spec, e.pre)
    ensures Steady(cfg, spec, e.post)
  {
    if e.post.buckets != e.pre.buckets && spec.bucket in e.post.buckets {
      AclAfter(e.pre.buckets, e.call.req, spec.bucket);
    }
  }

  lemma SteadyStep(cfg: Config, spec: Spec, e: Event)
    requires Step(cfg, e) && e.call.ByOperator() && Quiet(e.pre) && Steady(cfg, spec, e.pre)
    ensures Steady(cfg, spec, e.post)
  {
    if e.call.Api? {
      SteadyCall(cfg, spec, e);
    } else if e.call.Update? && SameVersion(e.pre, e.call.obj) {
      SteadyUpdate(cfg, spec, e.pre, e.call.obj);
    }
  }

  /** Faults do not make the status lie about the ACL as long as the spec stays. */
  lemma StaysSteady(cfg: Config, spec: Spec, s: State, es: seq<Event>, t: State)
    requires Run(cfg, s, es, t) && Undisturbed(es) && Quiet(s) && Steady(cfg, spec, s)
    ensures Quiet(t) && Steady(cfg, spec, t)
  {
    var inv := (u: State) => Quiet(u) && Steady(cfg, spec, u);
    forall i | 0 <= i < |es| && inv(es[i].pre) ensures inv(es[i].post) {
      assert StepAt(cfg, es, i);
      QuietStep(cfg, es[i]);
      SteadyStep(cfg, spec, es[i]);
    }
    Always(inv, s, es, t);
  }

  // ---------------------------------------------------------------- single passes

  /** Nothing went wrong in the pass, and nobody else acted. */
  predicate FaultFree(p: Pass) { Alone(p) && forall i | 0 <= i < |p.events| :: !Faulted(p.events[i]) }

  /** An undisturbed pass that read an object not under deletion and returned no error. */
  predicate Succeeded(p: Pass) {
    && Alone(p) && p.result.Done? && p.events != [] && p.events[0].reply.Ack?
    && p.before.stored.Some? && !p.before.stored.value.deleting
  }

  /** The bucket from which the stages of a pass over object `o` start; a missing one is created first. */
  function StartBucket(cfg: Config, p: Pass, o: Object): Bucket { Base(cfg, o, p.before.buckets)[o.spec.bucket] }

  /** The bucket is managed, and at most its ACL and its website differ from the spec. */
  lemma SuccessRepairs(cfg: Config, p: Pass)
    requires PassSpec(cfg, p) && Succeeded(p)
    ensures var spec := p.before.stored.value.spec;
            && p.after.stored.Some? && Managing(cfg, p.after, p.after.stored.value)
            && p.after.stored.value.spec == spec && p.after.stored.value.status.acl == DesiredAcl(spec)
            && Pending(cfg, p.after, spec) <= {Acl, WebsiteHosting}
  {
    QuietPass(cfg, p);
    var spec := p.before.stored.value.spec;
    forall f: Feature | f != Acl && f != WebsiteHosting
      ensures Agrees(cfg.floats, f, spec, p.after.buckets[spec.bucket])
    {
    }
  }

  /**
    A pass that returns no error leaves nothing that differs from the spec exactly when the status
    was not wrong about the ACL before, and the website agreed or is readable as the pass writes it.
   */
  lemma DoneRepairs(cfg: Config, p: Pass, o: Object)
    requires PassSpec(cfg, p) && Succeeded(p) && p.before.stored == Some(o)
    ensures Pending(cfg, p.after, o.spec) == {} <==>
              AclFaithful(p.before) && Works(cfg, WebsiteHosting, o.spec, StartBucket(cfg, p, o))
  {
    SuccessRepairs(cfg, p);
    QuietPass(cfg, p);
    var b := p.after.buckets[o.spec.bucket];
    assert Acl in Pending(cfg, p.after, o.spec) <==> !Agrees(cfg.floats, Acl, o.spec, b);
    assert WebsiteHosting in Pending(cfg, p.after, o.spec) <==> !Agrees(cfg.floats, WebsiteHosting, o.spec, b);
  }

  /**
    What a pass that returns no error has recorded: the bucket's ARN, its ACL, and its location,
    which is that of the spec or the configuration for a bucket it created, the one S3 gave, if any,
    for a bucket it acquired, and otherwise what it was.
   */
  lemma RecordedStatus(cfg: Config, p: Pass, o: Object)
    requires PassSpec(cfg, p) && Succeeded(p) && p.before.stored == Some(o)
    ensures var name, region := o.spec.bucket, if o.spec.region == "" then cfg.region else o.spec.region;
            && p.after.stored.Some?
            && p.after.stored.value.status ==
                 Status("arn:" + cfg.partition + ":s3:::" + name,
                        if name !in p.before.buckets then region
                        else if o.status.arn == "" && p.before.buckets[name].location.Some? then
                          p.before.buckets[name].location.value
                        else o.status.location,
                        if o.spec.acl == "" then "private" else o.spec.acl)
            && (name !in p.before.buckets ==>
                  && name in p.after.buckets && p.after.buckets[name].byOperator
                  && p.after.buckets[name].location == Some(region)
                  && !p.after.buckets[name].hasObjects)
  {
    SuccessRepairs(cfg, p);
    QuietPass(cfg, p);
    ArnSpelled(cfg.partition, o.spec.bucket);
  }

  /** A pass that returns no error leaves all other buckets alone. */
  lemma OthersUntouched(cfg: Config, p: Pass, o: Object, other: string)
    requires PassSpec(cfg, p) && Succeeded(p) && p.before.stored == Some(o) && other != o.spec.bucket
    ensures other in p.after.buckets <==> other in p.before.buckets
    ensures other in p.before.buckets ==> p.after.buckets[other] == p.before.buckets[other]
  {
    QuietPass(cfg, p);
  }

  /**
    Over a valid object with its ARN recorded and its JSON usable, a failed pass asks to be retried
    exactly when its last call failed in one of these ways.
   */
  lemma RetriedPasses(cfg: Config, p: Pass, o: Object)
    requires PassSpec(cfg, p) && p.result.Failed? && p.before.stored == Some(o) && p.events[0].reply.Ack?
    requires !o.deleting ==>
               && Validate(cfg, o).None? && o.status.arn != ""
               && Usable(cfg.floats, o.spec, false)
    ensures var e := p.events[|p.events| - 1];
            && e.reply.Failure?
            && (p.result.retryable <==>
                  && e.call.Api?
                  && match e.call.req
                     case Head(_) => e.reply.code == NoSuchBucket
                     case Locate(_) => e.reply.code == NoSuchBucket
                     case Inspect(_, f) => f != Tagging && e.reply.code == NoSuchBucket
                     case Create(_, _, _) => e.reply.code == OperationAborted
                     case Configure(_, PutTags(_)) => e.reply.code in {NoSuchBucket, OperationAborted}
                     case Configure(_, DeleteTags) => e.reply.code in {NoSuchBucket, OperationAborted}
                     case Configure(_, _) => e.reply.code == NoSuchBucket
                     case _ => false)
  {
    NormalFormWorksToo(cfg.floats, o.spec);
  }

  /** The object is not valid, or its bucket is somebody else's and may not be acquired. */
  predicate Hopeless(cfg: Config, spec: Spec, u: State) {
    && Quiet(u) && u.stored.Some? && u.stored.value.spec == spec && !u.stored.value.deleting && !Owes(u)
    && (Validate(cfg, u.stored.value).Some? || Refused(cfg, u.buckets, u.stored.value))
  }

  lemma HopelessUpdate(cfg: Config, spec: Spec, s: State, obj: Object)
    requires UpdateAllowed(cfg, s, obj) && SameVersion(s, obj) && Hopeless(cfg, spec, s)
    ensures Hopeless(cfg, spec, s.(stored := Some(obj), copy := Some(obj), last := None))
  {
  }

  lemma HopelessStep(cfg: Config, spec: Spec, e: Event)
    requires Step(cfg, e) && e.call.ByOperator() && Hopeless(cfg, spec, e.pre)
    ensures Hopeless(cfg, spec, e.post)
  {
    if e.call.Update? && SameVersion(e.pre, e.call.obj) {
      HopelessUpdate(cfg, spec, e.pre, e.call.obj);
    }
  }

  /**
    A pass without faults over an object not under deletion returns no error exactly when the
    object is valid, its JSON can be used as the pass needs it, and its bucket is missing, recorded
    or acquirable.
   */
  lemma PassOutcome(cfg: Config, p: Pass, o: Object)
    requires PassSpec(cfg, p) && FaultFree(p) && p.before.stored == Some(o) && !o.deleting
    ensures var bs, name, region :=
              p.before.buckets, o.spec.bucket, if o.spec.region == "" then cfg.region else o.spec.region;
            p.result.Done? <==>
              && Validate(cfg, o).None?
              && (|| name !in bs || o.status.arn != ""
                  || (&& o.spec.ownershipStrategy == Acquire
                      && (bs[name].location.None? || bs[name].location.value == region)))
              && Usable(cfg.floats, o.spec, WebsitePresent(cfg.floats, StartBucket(cfg, p, o)))
  {
    assert !Faulted(p.events[0]) && !Faulted(p.events[|p.events| - 1]);
    PassOpens(cfg, p);
    QuietPass(cfg, p);
    var es := p.events[1..];
    if Hopeless(cfg, o.spec, Opened(p)) {
      forall i | 0 <= i < |es| && Hopeless(cfg, o.spec, es[i].pre) ensures Hopeless(cfg, o.spec, es[i].post) {
        assert StepAt(cfg, es, i);
        HopelessStep(cfg, o.spec, es[i]);
      }
      Always(u => Hopeless(cfg, o.spec, u), Opened(p), es, p.after);
    }
  }

  // ---------------------------------------------------------------- the finalizer comes first

  /** Not under deletion, and marked. */
  predicate Guarded(u: State) { Quiet(u) && Marked(u.stored) && !u.stored.value.deleting }

  lemma GuardedStep(cfg: Config, e: Event)
    requires Step(cfg, e) && e.call.ByOperator() && Guarded(e.pre)
    ensures Guarded(e.post)
  {
  }

  lemma StaysGuarded(cfg: Config, s: State, es: seq<Event>, t: State)
    requires Run(cfg, s, es, t) && Undisturbed(es) && Guarded(s)
    ensures Guarded(t) && forall i | 0 <= i < |es| :: Guarded(es[i].pre)
  {
    forall i | 0 <= i < |es| && Guarded(es[i].pre) ensures Guarded(es[i].post) {
      assert StepAt(cfg, es, i);
      GuardedStep(cfg, es[i]);
    }
    Always(Guarded, s, es, t);
  }

  /** Over an object without the finalizer, the first call after the Get puts it on. */
  lemma FirstCallMarks(cfg: Config, p: Pass, o: Object)
    requires PassSpec(cfg, p) && Alone(p) && p.events[0].reply.Ack? && p.before.stored == Some(o) && !o.deleting
    requires FINALIZER !in o.finalizers
    ensures |p.events| > 1 && p.events[1].call == Update(o.(finalizers := o.finalizers + [FINALIZER]))
    ensures StepAt(cfg, p.events, 1) && p.events[1].pre == Opened(p)
  {
    assert StepAt(cfg, p.events, 0);
    if |p.events| > 1 { assert StepAt(cfg, p.events, 1) && Joined(p.events, 0); }
  }

  /** After a failed update a pass makes no further call. */
  lemma FailureEnds(cfg: Config, p: Pass)
    requires PassSpec(cfg, p) && Alone(p) && |p.events| > 1 && p.events[1].call.Update? && p.events[1].reply.Failure?
    ensures |p.events| == 2
  {
    assert StepAt(cfg, p.events, 1);
    if |p.events| > 2 { CallNeedsCopy(cfg, p, 2); }
  }

  lemma CallNeedsCopy(cfg: Config, p: Pass, n: nat)
    requires PassSpec(cfg, p) && Alone(p) && 0 < n < |p.events|
    ensures p.events[n - 1].post.copy.Some?
  {
    assert StepAt(cfg, p.events, n) && Joined(p.events, n - 1);
  }

  /**
    A pass over an object not under deletion first makes sure of the finalizer: if it was missing,
    the first call after the Get is the update that appends it, and unless that fails the stored
    object carries it whatever the pass comes to, a complaint about the spec included.
   */
  lemma MarkedFirst(cfg: Config, p: Pass, o: Object)
    requires PassSpec(cfg, p) && Alone(p) && p.events[0].reply.Ack? && p.before.stored == Some(o) && !o.deleting
    ensures var finalizer := "delete-bucket.finalizers.aws.grepplabs.com";
            && (finalizer !in o.finalizers ==>
                  |p.events| > 1 && p.events[1].call == Update(o.(finalizers := o.finalizers + [finalizer])))
            && (p.result.Requeued? <==> finalizer !in o.finalizers && p.events[1].reply.Failure?)
            && (!p.result.Requeued? ==>
                  p.after.stored.Some? && finalizer in p.after.stored.value.finalizers)
  {
    PassOpens(cfg, p);
    if FINALIZER in o.finalizers {
      StaysGuarded(cfg, Opened(p), p.events[1..], p.after);
      MarkedOnce(cfg, p, 1);
    } else {
      FirstCallMarks(cfg, p, o);
      if p.events[1].reply.Failure? {
        FailureEnds(cfg, p);
      } else {
        RunFrom(cfg, p.before, p.events, p.after, 2);
        StaysGuarded(cfg, p.events[1].post, p.events[2..], p.after);
        MarkedOnce(cfg, p, 2);
      }
    }
  }

  /** From event `n` on the object is marked, so no further update puts the finalizer on. */
  lemma MarkedOnce(cfg: Config, p: Pass, n: nat)
    requires PassSpec(cfg, p) && 0 < n <= |p.events| && !MarkingFailed(p.events[n - 1])
    requires p.events[0].reply.Ack? && p.before.stored.Some? && !p.before.stored.value.deleting
    requires forall i | 0 <= i < |p.events[n..]| :: Guarded(p.events[n..][i].pre)
    ensures !p.result.Requeued?
  {
    var last := |p.events| - 1;
    if last >= n {
      assert p.events[n..][last - n] == p.events[last];
      assert StepAt(cfg, p.events, last);
    }
  }

  // ---------------------------------------------------------------- convergence

  /** Passes one after the other, with nobody else acting. */
  ghost predicate Passes(cfg: Config, ps: seq<Pass>) {
    && (forall i | 0 <= i < |ps| :: PassSpec(cfg, ps[i]) && Alone(ps[i]))
    && (forall i, j | 0 <= i && j == i + 1 && j < |ps| :: ps[i].after == ps[j].before)
  }

  lemma {:induction false} SteadyAt(cfg: Config, spec: Spec, ps: seq<Pass>, k: nat)
    requires Passes(cfg, ps) && k < |ps| && Steady(cfg, spec, ps[0].before)
    ensures Steady(cfg, spec, ps[k].before) && Steady(cfg, spec, ps[k].after)
  {
    if k > 0 {
      SteadyAt(cfg, spec, ps, k - 1);
    }
    PassOpens(cfg, ps[k]);
    StaysSteady(cfg, spec, Opened(ps[k]), ps[k].events[1..], ps[k].after);
  }

  lemma {:induction false} StaysRepaired(cfg: Config, spec: Spec, ps: seq<Pass>, k: nat, j: nat)
    requires Passes(cfg, ps) && k <= j < |ps|
    requires Within(cfg, spec, {}, ps[k].after)
    ensures Within(cfg, spec, {}, ps[j].after)
  {
    if k < j {
      StaysRepaired(cfg, spec, ps, k, j - 1);
      PassOpens(cfg, ps[j]);
      StaysWithin(cfg, spec, {}, Opened(ps[j]), ps[j].events[1..], ps[j].after);
    }
  }

  /** The pass succeeded, or nothing went wrong in it. */
  predicate Good(p: Pass) { FaultFree(p) || (Alone(p) && p.events != [] && p.events[0].reply.Ack? && p.result.Done?) }

  lemma GoodSucceeds(cfg: Config, spec: Spec, p: Pass)
    requires PassSpec(cfg, p) && Good(p) && Steady(cfg, spec, p.before) && Usable(cfg.floats, spec, false)
    ensures Succeeded(p)
  {
    NormalFormWorksToo(cfg.floats, spec);
    if FaultFree(p) { PassOutcome(cfg, p, p.before.stored.value); }
    assert StepAt(cfg, p.events, 0);
  }

  /**
    Convergence: one pass without faults, or any pass that reports no error, repairs everything,
    whatever happened in the passes before it; and later faults spoil nothing.
   */
  lemma Converges(cfg: Config, spec: Spec, ps: seq<Pass>, k: nat, j: nat)
    requires Passes(cfg, ps) && k <= j < |ps| && Good(ps[k])
    requires Steady(cfg, spec, ps[0].before) && Usable(cfg.floats, spec, false) && Readable(cfg.floats, spec, false)
    ensures ps[k].result.Done? && Pending(cfg, ps[j].after, spec) == {}
  {
    SteadyAt(cfg, spec, ps, k);
    GoodSucceeds(cfg, spec, ps[k]);
    NormalFormWorksToo(cfg.floats, spec);
    SuccessRepairs(cfg, ps[k]);
    DoneRepairs(cfg, ps[k], ps[k].before.stored.value);
    QuietPass(cfg, ps[k]);
    StaysRepaired(cfg, spec, ps, k, j);
  }

  /** The bucket is there, and the operator reads a website from it if one is asked for. */
  predicate HasWebsite(cfg: Config, spec: Spec, u: State) {
    && Within(cfg, spec, EVERYTHING, u) && spec.bucket in u.buckets
    && (spec.website.Some? ==> WebsitePresent(cfg.floats, u.buckets[spec.bucket]))
  }

  lemma WrittenIsPresent(cfg: Config, spec: Spec, present: bool)
    requires spec.website.Some? && Readable(cfg.floats, spec, true)
    requires SiteFor(cfg.floats, spec.website.value, present).Some?
    ensures ReadWebsite(cfg.floats, SiteFor(cfg.floats, spec.website.value, present)).Some?
  {
  }

  lemma HasWebsiteStep(cfg: Config, spec: Spec, e: Event)
    requires Step(cfg, e) && e.call.ByOperator() && HasWebsite(cfg, spec, e.pre) && Readable(cfg.floats, spec, true)
    ensures HasWebsite(cfg, spec, e.post)
  {
    WithinStep(cfg, spec, EVERYTHING, e);
    if e.call.Api? && e.call.req.Configure? && e.call.req.change.PutWebsite? {
      WrittenIsPresent(cfg, spec, SiteFor(cfg.floats, spec.website.value, true) == Some(e.call.req.change.site));
    }
  }

  lemma {:induction false} HasWebsiteAt(cfg: Config, spec: Spec, ps: seq<Pass>, k: nat, j: nat)
    requires Passes(cfg, ps) && k <= j < |ps| && Readable(cfg.floats, spec, true)
    requires HasWebsite(cfg, spec, ps[k].after)
    ensures HasWebsite(cfg, spec, ps[j].after)
  {
    if k < j {
      HasWebsiteAt(cfg, spec, ps, k, j - 1);
      PassOpens(cfg, ps[j]);
      var es := ps[j].events[1..];
      forall i | 0 <= i < |es| && HasWebsite(cfg, spec, es[i].pre) ensures HasWebsite(cfg, spec, es[i].post) {
        assert StepAt(cfg, es, i);
        HasWebsiteStep(cfg, spec, es[i]);
      }
      Always(u => HasWebsite(cfg, spec, u), Opened(ps[j]), es, ps[j].after);
    }
  }

  /**
    When repeated parts of the routing rules get lost, the first write is as given and is not read
    back; the next one is in normal form.  So then two such passes are enough.
   */
  lemma ConvergesInTwo(cfg: Config, spec: Spec, ps: seq<Pass>, k: nat, m: nat, j: nat)
    requires Passes(cfg, ps) && k < m <= j < |ps| && Good(ps[k]) && Good(ps[m])
    requires Steady(cfg, spec, ps[0].before) && Usable(cfg.floats, spec, false) && Readable(cfg.floats, spec, true)
    ensures Pending(cfg, ps[j].after, spec) == {}
  {
    SteadyAt(cfg, spec, ps, k);
    SteadyAt(cfg, spec, ps, m);
    GoodSucceeds(cfg, spec, ps[k]);
    GoodSucceeds(cfg, spec, ps[m]);
    SuccessRepairs(cfg, ps[k]);
    SuccessRepairs(cfg, ps[m]);
    QuietPass(cfg, ps[k]);
    QuietPass(cfg, ps[m]);
    SuccessHasWebsite(cfg, ps[k], ps[k].before.stored.value);
    HasWebsiteAt(cfg, spec, ps, k, m - 1);
    DoneRepairs(cfg, ps[m], ps[m].before.stored.value);
    StaysRepaired(cfg, spec, ps, m, j);
  }

  lemma SuccessHasWebsite(cfg: Config, p: Pass, o: Object)
    requires PassSpec(cfg, p) && Succeeded(p) && p.before.stored == Some(o) && Readable(cfg.floats, o.spec, true)
    ensures HasWebsite(cfg, o.spec, p.after)
  {
    SuccessRepairs(cfg, p);
    QuietPass(cfg, p);
    if o.spec.website.Some? && !Agrees(cfg.floats, WebsiteHosting, o.spec, StartBucket(cfg, p, o)) {
      WrittenIsPresent(cfg, o.spec, WebsitePresent(cfg.floats, StartBucket(cfg, p, o)));
    }
  }

  /** A status that mirrors the ACL of the recorded bucket is faithful to the spec's bucket. */
  lemma MirrorIsFaithful(cfg: Config, u: State)
    requires Mirrors(cfg, u) && !Owes(u)
    requires u.stored.Some? && (u.stored.value.status.arn == "" || Owned(cfg, u.stored.value))
    ensures AclFaithful(u)
  {
    assert DesiredAcl(u.stored.value.spec) != "";
  }

  /**
    From any history of faults, edits and outside changes in which the status does not get out of
    step, one pass without faults brings a valid object's bucket in line with its spec.
   */
  lemma OnePassAfterAnything(cfg: Config, s: State, es: seq<Event>, t: State, p: Pass, o: Object)
    requires Run(cfg, s, es, t) && Coherent(s) && Mirrors(cfg, s) && !Owes(t)
    requires forall i | 0 <= i < |es| :: !LosesAcl(cfg, es[i])
    requires PassSpec(cfg, p) && FaultFree(p) && p.before == t && t.stored == Some(o) && !o.deleting
    requires Validate(cfg, o).None? && !Refused(cfg, t.buckets, o)
    requires var present := WebsitePresent(cfg.floats, StartBucket(cfg, p, o));
             Usable(cfg.floats, o.spec, present) && Readable(cfg.floats, o.spec, present)
    ensures p.result.Done? && Pending(cfg, p.after, o.spec) == {}
  {
    StatusMirrorsAcl(cfg, s, es, t);
    MirrorIsFaithful(cfg, t);
    PassOutcome(cfg, p, o);
    assert StepAt(cfg, p.events, 0) && !Faulted(p.events[0]);
    DoneRepairs(cfg, p, o);
  }

  // ---------------------------------------------------------------- refinement

  /** What can be read from a bucket. */
  datatype View = View(tags: TagMap, policy: string, acl: string, sse: Option<Sse>, versioning: bool,
                       logging: Option<Logging>, website: Option<Website>, cors: Option<seq<CorsRule>>)

  function Observed(fc: Strconv, b: Bucket): View {
    View(ToMap(b.tagSet), ReadPolicy(fc, b.policy), b.acl, ReadSse(b.sse), b.versioning == Enabled,
         ReadLogging(b.logging), ReadWebsite(fc, b.website), ReadCors(b.cors))
  }

  /** The simple specification: every feature is overwritten with what the spec says. */
  function Overwrite(fc: Strconv, spec: Spec, tags: seq<Tag>, b: Bucket): Bucket {
    Bucket(b.location, b.byOperator, b.hasObjects,
           SystemTags(b.tagSet) + tags,
           if spec.policy == "" then None else Some(Trim(spec.policy)),
           DesiredAcl(spec),
           if spec.sse.None? then [] else WriteSse(spec.sse.value),
           WriteVersioning(DesiredVersioning(spec)),
           WriteLogging(spec.logging),
           if spec.website.None? then None else SiteFor(fc, spec.website.value, WebsitePresent(fc, b)),
           if spec.cors.None? then [] else WriteCors(spec.cors.value))
  }

  /** Overwriting makes every feature agree. */
  lemma OverwriteAgrees(fc: Strconv, spec: Spec, tags: seq<Tag>, b: Bucket, f: Feature)
    requires Usable(fc, spec, WebsitePresent(fc, b)) && Readable(fc, spec, WebsitePresent(fc, b))
    requires Lists(tags, Visible(spec.tags))
    requires spec.website.Some? ==> OneSided(spec.website.value)
    ensures Agrees(fc, f, spec, Overwrite(fc, spec, tags, b))
  {
    match f
    case Tagging => TagsReadBack(b, tags, spec.tags);
    case Policy => if spec.policy != "" { PolicyReadBack(fc, spec.policy); }
    case Encryption => if spec.sse.Some? { SseRoundTrip(spec.sse.value); }
    case LoggingTarget => LoggingRoundTrip(spec.logging);
    case WebsiteHosting => if spec.website.Some? { WebsiteReadBack(fc, spec.website.value, WebsitePresent(fc, b)); }
    case _ =>
  }

  /** Two buckets that agree with a spec in everything cannot be told apart. */
  lemma AgreeingLookAlike(fc: Strconv, spec: Spec, a: Bucket, b: Bucket)
    requires forall f: Feature :: Agrees(fc, f, spec, a) && Agrees(fc, f, spec, b)
    ensures Observed(fc, a) == Observed(fc, b)
  {
    assert Agrees(fc, Tagging, spec, a) && Agrees(fc, Tagging, spec, b);
    assert Agrees(fc, Policy, spec, a) && Agrees(fc, Policy, spec, b);
    assert Agrees(fc, Acl, spec, a) && Agrees(fc, Acl, spec, b);
    assert Agrees(fc, Encryption, spec, a) && Agrees(fc, Encryption, spec, b);
    assert Agrees(fc, VersioningState, spec, a) && Agrees(fc, VersioningState, spec, b);
    assert Agrees(fc, LoggingTarget, spec, a) && Agrees(fc, LoggingTarget, spec, b);
    assert Agrees(fc, WebsiteHosting, spec, a) && Agrees(fc, WebsiteHosting, spec, b);
    assert Agrees(fc, Cors, spec, a) && Agrees(fc, Cors, spec, b);
  }

  lemma ElsewhereServed(name: string, bs: Buckets, u: Buckets, req: Request)
    requires SameElsewhere(name, bs, u) && req.bucket == name && (req.Create? || req.Configure? || req.ReadOnly())
    ensures SameElsewhere(name, bs, Served(u, req))
  {
    var v := Served(u, req);
    assert v == bs[name := v[name]];
  }

  lemma ElsewhereStep(cfg: Config, name: string, bs: Buckets, e: Event)
    requires Step(cfg, e) && e.call.ByOperator() && SameElsewhere(name, bs, e.pre.buckets)
    requires e.pre.copy.Some? ==> !e.pre.copy.value.deleting && e.pre.copy.value.spec.bucket == name
    ensures SameElsewhere(name, bs, e.post.buckets)
  {
    if e.call.Api? && e.post.buckets != e.pre.buckets {
      ElsewhereServed(name, bs, e.pre.buckets, e.call.req);
    }
  }

  lemma StaysElsewhere(cfg: Config, spec: Spec, s: State, es: seq<Event>, t: State)
    requires Run(cfg, s, es, t) && Undisturbed(es) && Within(cfg, spec, EVERYTHING, s) && spec.bucket in s.buckets
    ensures SameElsewhere(spec.bucket, s.buckets, t.buckets)
  {
    StaysWithin(cfg, spec, EVERYTHING, s, es, t);
    assert s.buckets == s.buckets[spec.bucket := s.buckets[spec.bucket]];
    forall i | 0 <= i < |es| && SameElsewhere(spec.bucket, s.buckets, es[i].pre.buckets)
      ensures SameElsewhere(spec.bucket, s.buckets, es[i].post.buckets)
    {
      assert StepAt(cfg, es, i);
      ElsewhereStep(cfg, spec.bucket, s.buckets, es[i]);
    }
    Always((u: State) => SameElsewhere(spec.bucket, s.buckets, u.buckets), s, es, t);
  }

  /**
    Refinement: over whatever an owned bucket held before, a pass without faults looks like
    overwriting its configuration with the spec, and touches nothing else.
   */
  lemma PassOverwrites(cfg: Config, spec: Spec, p: Pass, tags: seq<Tag>)
    requires PassSpec(cfg, p) && FaultFree(p) && Steady(cfg, spec, p.before) && spec.bucket in p.before.buckets
    requires Lists(tags, Visible(spec.tags))
    requires var present := WebsitePresent(cfg.floats, p.before.buckets[spec.bucket]);
             Usable(cfg.floats, spec, present) && Readable(cfg.floats, spec, present)
    ensures p.result.Done? && SameElsewhere(spec.bucket, p.before.buckets, p.after.buckets)
    ensures Observed(cfg.floats, p.after.buckets[spec.bucket])
            == Observed(cfg.floats, Overwrite(cfg.floats, spec, tags, p.before.buckets[spec.bucket]))
  {
    PassOutcome(cfg, p, p.before.stored.value);
    assert !Faulted(p.events[0]) && StepAt(cfg, p.events, 0);
    DoneRepairs(cfg, p, p.before.stored.value);
    PassOpens(cfg, p);
    StaysElsewhere(cfg, spec, Opened(p), p.events[1..], p.after);
    var b := p.after.buckets[spec.bucket];
    var w := Overwrite(cfg.floats, spec, tags, p.before.buckets[spec.bucket]);
    forall f: Feature ensures Agrees(cfg.floats, f, spec, b) && Agrees(cfg.floats, f, spec, w) {
      assert f !in Differs(cfg.floats, b, spec);
      OverwriteAgrees(cfg.floats, spec, tags, p.before.buckets[spec.bucket], f);
    }
    AgreeingLookAlike(cfg.floats, spec, b, w);
  }

  // ---------------------------------------------------------------- quiescence

  /** Nothing is left to do for the stored object. */
  predicate Settled(cfg: Config, o: Object, u: State) {
    && Quiet(u) && u.stored == Some(o) && Live(cfg, o) && Owned(cfg, o) && !Owes(u)
    && o.spec.bucket in u.buckets && Pending(cfg, u, o.spec) <= {Acl}
    && o.status.acl == DesiredAcl(o.spec) && Visible(o.spec.tags) == o.spec.tags
  }

  lemma NothingWanted(cfg: Config, o: Object, b: Bucket, c: Change)
    requires Differs(cfg.floats, b, o.spec) <= {Acl} && o.status.acl == DesiredAcl(o.spec)
    requires Visible(o.spec.tags) == o.spec.tags
    ensures !Wanted(cfg, o, b, c)
  {
    forall f: Feature | f != Acl ensures Agrees(cfg.floats, f, o.spec, b) {
      assert f !in Differs(cfg.floats, b, o.spec);
    }
    assert c.Feature() != Acl ==> Agrees(cfg.floats, c.Feature(), o.spec, b);
  }

  predicate Reads(e: Event) { e.call.Get? || (e.call.Api? && e.call.req.ReadOnly()) }

  /** In a settled state the operator only reads. */
  lemma SettledStep(cfg: Config, o: Object, e: Event)
    requires Step(cfg, e) && e.call.ByOperator() && Settled(cfg, o, e.pre)
    ensures Reads(e) && Settled(cfg, o, e.post) && e.post.buckets == e.pre.buckets
  {
    if e.call.Api? && e.call.req.Configure? {
      NothingWanted(cfg, o, e.pre.buckets[o.spec.bucket], e.call.req.change);
    }
  }

  predicate OnlyReads(es: seq<Event>) { forall i | 0 <= i < |es| :: Reads(es[i]) }

  lemma SettledRun(cfg: Config, o: Object, s: State, es: seq<Event>, t: State)
    requires Run(cfg, s, es, t) && Undisturbed(es) && Settled(cfg, o, s)
    ensures OnlyReads(es) && t.stored == s.stored && t.buckets == s.buckets
  {
    var inv := (u: State) => Settled(cfg, o, u) && u.buckets == s.buckets;
    forall i | 0 <= i < |es| && inv(es[i].pre) ensures inv(es[i].post) && Reads(es[i]) {
      assert StepAt(cfg, es, i);
      SettledStep(cfg, o, es[i]);
    }
    Always(inv, s, es, t);
  }

  /** The event is a call that changes feature `f`. */
  predicate Writes(e: Event, f: Feature) { e.call.Api? && e.call.req.Configure? && e.call.req.change.Feature() == f }

  /** A feature counts as sent only through a call that changes it. */
  lemma SentByWriting(cfg: Config, s: State, es: seq<Event>, t: State, f: Feature)
    requires Run(cfg, s, es, t) && f !in s.sent && f in t.sent
    ensures exists i :: 0 <= i < |es| && Writes(es[i], f)
  {
    if forall i | 0 <= i < |es| :: !Writes(es[i], f) {
      forall i | 0 <= i < |es| && f !in es[i].pre.sent ensures f !in es[i].post.sent {
        assert StepAt(cfg, es, i);
      }
      Always((u: State) => f !in u.sent, s, es, t);
    }
  }

  predicate AsksForNoSystemTags(spec: Spec) { forall k | k in spec.tags :: !Ignored(k) }

  /**
    Quiescence: after a pass that returned no error, a further one that returns none only reads
    exactly when no `aws:` tag is asked for and the website came to agree.
   */
  lemma Quiescence(cfg: Config, p: Pass, q: Pass, spec: Spec)
    requires PassSpec(cfg, p) && Succeeded(p) && p.before.stored.value.spec == spec
    requires PassSpec(cfg, q) && q.before == p.after && Succeeded(q)
    ensures OnlyReads(q.events) <==> AsksForNoSystemTags(spec) && WebsiteHosting !in Pending(cfg, p.after, spec)
  {
    SuccessRepairs(cfg, p);
    QuietPass(cfg, p);
    var o, b := p.after.stored.value, p.after.buckets[spec.bucket];
    assert Tagging !in Pending(cfg, p.after, spec);
    TagsSettle(cfg, spec, b);
    if AsksForNoSystemTags(spec) && WebsiteHosting !in Pending(cfg, p.after, spec) {
      SettledPass(cfg, q, o);
    } else {
      var f := if AsksForNoSystemTags(spec) then WebsiteHosting else Tagging;
      SuccessSends(cfg, q, o, f);
      SentInPass(cfg, q, f);
    }
  }

  /** A pass that returned no error has sent a change of a feature exactly if it was due. */
  lemma SuccessSends(cfg: Config, q: Pass, o: Object, f: Feature)
    requires PassSpec(cfg, q) && Succeeded(q) && q.before.stored == Some(o)
    ensures f in q.after.sent <==> Due(cfg, f, o.spec, Shown(o, q.before.buckets), StartBucket(cfg, q, o))
  {
    QuietPass(cfg, q);
    OrderByRank(f);
  }

  /** What a pass has sent can be seen among its calls. */
  lemma SentInPass(cfg: Config, q: Pass, f: Feature)
    requires PassSpec(cfg, q) && f in q.after.sent
    ensures exists e :: e in q.events && Writes(e, f)
  {
    assert StepAt(cfg, q.events, 0);
    PassOpens(cfg, q);
    SentByWriting(cfg, Opened(q), q.events[1..], q.after, f);
    var i :| 0 <= i < |q.events[1..]| && Writes(q.events[1..][i], f);
    assert q.events[i + 1] in q.events;
  }

  /** A pass that finds everything in order only reads and changes nothing, whatever fails. */
  lemma SettledPass(cfg: Config, q: Pass, o: Object)
    requires PassSpec(cfg, q) && Alone(q) && q.before.stored == Some(o) && Live(cfg, o) && Owned(cfg, o)
    requires o.spec.bucket in q.before.buckets && Pending(cfg, q.before, o.spec) <= {Acl}
    requires o.status.acl == DesiredAcl(o.spec) && AsksForNoSystemTags(o.spec)
    ensures OnlyReads(q.events) && q.after.stored == q.before.stored && q.after.buckets == q.before.buckets
  {
    PassOpens(cfg, q);
    assert Visible(o.spec.tags) == o.spec.tags;
    SettledRun(cfg, o, Opened(q), q.events[1..], q.after);
    forall i | 0 <= i < |q.events| ensures Reads(q.events[i]) {
      if i > 0 { assert q.events[1..][i - 1] == q.events[i]; }
    }
  }

  /** Once tags agree, the tag stage has nothing to write exactly when no tag of AWS's own is asked for. */
  lemma TagsSettle(cfg: Config, spec: Spec, b: Bucket)
    requires Agrees(cfg.floats, Tagging, spec, b)
    ensures ToMap(b.tagSet) == spec.tags <==> forall k | k in spec.tags :: !Ignored(k)
  {
    if forall k | k in spec.tags :: !Ignored(k) {
      assert Visible(spec.tags) == spec.tags;
    } else {
      var k :| k in spec.tags && Ignored(k);
      assert k !in Visible(spec.tags);
    }
  }

  /**
    A pass that returned no error wrote the website exactly when it did not agree, and then it agrees
    exactly when it is readable as it was written.  So a website that is not readable either way is
    written by every such pass.
   */
  lemma WebsiteSettles(cfg: Config, p: Pass, o: Object)
    requires PassSpec(cfg, p) && Succeeded(p) && p.before.stored == Some(o)
    ensures var a := StartBucket(cfg, p, o);
            && (WebsiteHosting in p.after.sent <==> !Agrees(cfg.floats, WebsiteHosting, o.spec, a))
            && (WebsiteHosting in p.after.sent ==> exists e :: e in p.events && Writes(e, WebsiteHosting))
            && (WebsiteHosting in p.after.sent ==>
                  (WebsiteHosting !in Pending(cfg, p.after, o.spec) <==>
                   Readable(cfg.floats, o.spec, WebsitePresent(cfg.floats, a))))
  {
    SuccessRepairs(cfg, p);
    QuietPass(cfg, p);
    SuccessSends(cfg, p, o, WebsiteHosting);
    if WebsiteHosting in p.after.sent { SentInPass(cfg, p, WebsiteHosting); }
  }

  // ---------------------------------------------------------------- stage isolation

  /**
    The stage of `order[k]` failed: stages before it have made their feature match the spec, the
    website if that could be done; later ones left the bucket alone, and no other bucket changed.
   */
  predicate CutOff(cfg: Config, spec: Spec, order: seq<Feature>, k: nat, bs: Buckets, cs: Buckets) {
    && SameElsewhere(spec.bucket, bs, cs)
    && (forall j | 0 <= j < k && j < |order| ::
          Agrees(cfg.floats, order[j], spec, cs[spec.bucket]) <==> Works(cfg, order[j], spec, bs[spec.bucket]))
    && (forall j | k < j < |order| :: SameField(order[j], bs[spec.bucket], cs[spec.bucket]))
  }

  lemma CutOffAt(cfg: Config, f: Feature, spec: Spec, shown: string, bs: Buckets, cs: Buckets)
    requires StoppedAt(cfg, f, spec, shown, bs, cs)
    requires shown == DesiredAcl(spec) ==> bs[spec.bucket].acl == DesiredAcl(spec)
    ensures ORDER[Rank(f)] == f && CutOff(cfg, spec, ORDER, Rank(f), bs, cs)
  {
    OrderByRank(f);
    var a, b := bs[spec.bucket], cs[spec.bucket];
    forall j | 0 <= j < Rank(f) ensures Agrees(cfg.floats, ORDER[j], spec, b) <==> Works(cfg, ORDER[j], spec, a) {
      assert StageShows(cfg, ORDER[j], spec, shown, a, b);
    }
  }

  /**
    A pass that fails is told by its last call.  If that call belongs to a repair stage, every
    earlier feature matches the spec and every later one is as it was when the stages began, after
    creating the bucket if it was missing; if not, the buckets that were there are as they were.
   */
  lemma StageIsolation(cfg: Config, p: Pass, o: Object)
    requires PassSpec(cfg, p) && p.events[0].reply.Ack? && !p.result.Done? && p.after.calm
    requires p.before.stored == Some(o) && !o.deleting && AclFaithful(p.before)
    ensures var order := [Tagging, Policy, Acl, Encryption, VersioningState, LoggingTarget, WebsiteHosting, Cors];
            match StageOf(p.events[|p.events| - 1])
            case Some(f) =>
              exists k | 0 <= k < |order| ::
                order[k] == f && CutOff(cfg, o.spec, order, k, Base(cfg, o, p.before.buckets), p.after.buckets)
            case None => Untouched(o.spec.bucket, p.before.buckets, p.after.buckets)
  {
    var bs, stage := p.before.buckets, StageOf(p.events[|p.events| - 1]);
    if stage.Some? {
      CutOffAt(cfg, stage.value, o.spec, Shown(o, bs), Base(cfg, o, bs), p.after.buckets);
    }
  }

  // ---------------------------------------------------------------- deletion

  /** The object is held as long as the bucket is there, and stays under deletion. */
  predicate Letting(o: Object, b: string, u: State) {
    && Quiet(u) && (u.stored == Some(o) || b !in u.buckets)
    && (u.stored.Some? ==> u.stored.value.deleting)
  }

  lemma LettingStep(cfg: Config, o: Object, b: string, e: Event)
    requires Step(cfg, e) && e.call.ByOperator() && Letting(o, b, e.pre)
    requires o.spec.deleteStrategy != Skip && o.status.arn != "" && ArnResource(o.status.arn) == Some(b)
    ensures Letting(o, b, e.post)
  {
    if e.call.Update? && SameVersion(e.pre, e.call.obj) {
      assert Releases(e.pre, e.pre.copy.value, e.call.obj);
    }
  }

  /** The object, if it is still there, is under deletion with the strategy Skip, and the buckets are `bs`. */
  predicate Sparing(bs: Buckets, u: State) {
    && Quiet(u) && u.buckets == bs
    && (u.stored.Some? ==> u.stored.value.deleting && u.stored.value.spec.deleteStrategy == Skip)
  }

  lemma SparingStep(cfg: Config, bs: Buckets, e: Event)
    requires Step(cfg, e) && e.call.ByOperator() && Sparing(bs, e.pre)
    ensures Sparing(bs, e.post) && !e.call.Api?
  {
  }

  /** Under the strategy Skip a deletion pass makes no call to S3, leaves every bucket alone and lets the object go. */
  lemma SkippedPass(cfg: Config, p: Pass, o: Object)
    requires PassSpec(cfg, p) && Alone(p) && p.before.stored == Some(o) && o.deleting
    requires o.spec.deleteStrategy == Skip
    ensures p.after.buckets == p.before.buckets
    ensures forall i | 0 <= i < |p.events| :: !p.events[i].call.Api?
    ensures FaultFree(p) ==>
              && p.result.Done?
              && (p.after.stored.None? || FINALIZER !in p.after.stored.value.finalizers)
  {
    PassOpens(cfg, p);
    var es, bs := p.events[1..], p.before.buckets;
    forall i | 0 <= i < |es| && Sparing(bs, es[i].pre) ensures Sparing(bs, es[i].post) && !es[i].call.Api? {
      assert StepAt(cfg, es, i);
      SparingStep(cfg, bs, es[i]);
    }
    Always(u => Sparing(bs, u), Opened(p), es, p.after);
    forall i | 0 <= i < |p.events| ensures !p.events[i].call.Api? {
      if i > 0 { assert es[i - 1] == p.events[i]; }
    }
    if FaultFree(p) { assert !Faulted(p.events[0]) && !Faulted(p.events[|p.events| - 1]); }
  }

  /** The object is held and the bucket has objects. */
  predicate Stuck(o: Object, b: string, u: State) {
    Quiet(u) && u.stored == Some(o) && b in u.buckets && u.buckets[b].hasObjects
  }

  lemma StuckStep(cfg: Config, o: Object, b: string, e: Event)
    requires Step(cfg, e) && e.call.ByOperator() && Stuck(o, b, e.pre)
    requires o.deleting && ArnResource(o.status.arn) == Some(b) && o.status.arn != ""
    requires o.spec.deleteStrategy != Skip && o.spec.deleteStrategy != Force
    ensures Stuck(o, b, e.post)
  {
  }

  /**
    A pass without faults over an object under deletion succeeds exactly when the recorded
    bucket is not blocked by its objects; then the finalizer is gone and so is the bucket,
    unless the strategy is Skip.
   */
  lemma DeletionOutcome(cfg: Config, p: Pass, o: Object)
    requires PassSpec(cfg, p) && FaultFree(p) && p.before.stored == Some(o) && Dying(o)
    ensures !p.result.Done? <==>
              && o.spec.deleteStrategy != Force && o.spec.deleteStrategy != Skip && o.status.arn != ""
              && var b := ArnResource(o.status.arn);
                 b.Some? && b.value in p.before.buckets && p.before.buckets[b.value].hasObjects
    ensures p.result.Done? ==> p.after.stored.None? || FINALIZER !in p.after.stored.value.finalizers
    ensures p.result.Done? && o.spec.deleteStrategy != Skip && o.status.arn != ""
            && ArnResource(o.status.arn).Some? ==>
              ArnResource(o.status.arn).value !in p.after.buckets
  {
    assert !Faulted(p.events[0]) && !Faulted(p.events[|p.events| - 1]);
    PassOpens(cfg, p);
    QuietPass(cfg, p);
    var s, es := Opened(p), p.events[1..];
    if o.spec.deleteStrategy != Skip && o.status.arn != "" && ArnResource(o.status.arn).Some? {
      var b := ArnResource(o.status.arn).value;
      forall i | 0 <= i < |es| && Letting(o, b, es[i].pre) ensures Letting(o, b, es[i].post) {
        assert StepAt(cfg, es, i);
        LettingStep(cfg, o, b, es[i]);
      }
      Always(u => Letting(o, b, u), s, es, p.after);
      if Blocked(p.before.buckets, o) {
        forall i | 0 <= i < |es| && Stuck(o, b, es[i].pre) ensures Stuck(o, b, es[i].post) {
          assert StepAt(cfg, es, i);
          StuckStep(cfg, o, b, es[i]);
        }
        Always(u => Stuck(o, b, u), s, es, p.after);
      }
    }
  }

  // ---------------------------------------------------------------- passes among everything else

  /** A pass of the reconciler, a pass cut short by a crash, or something that somebody else does. */
  datatype Turn = Whole(pass: Pass) | Crashed(pass: Pass, done: nat) | Elsewhere(event: Event)

  predicate WellFormed(turn: Turn) { turn.Crashed? ==> turn.done <= |turn.pass.events| }

  function EventsOf(turn: Turn): seq<Event>
    requires WellFormed(turn)
  {
    match turn
    case Whole(p) => p.events
    case Crashed(p, n) => p.events[..n]
    case Elsewhere(e) => [e]
  }

  function AllEvents(turns: seq<Turn>): seq<Event>
    requires forall turn | turn in turns :: WellFormed(turn)
  {
    if turns == [] then [] else EventsOf(turns[0]) + AllEvents(turns[1..])
  }

  /** The turn leads from `s` to `t`. */
  ghost predicate Taken(cfg: Config, s: State, turn: Turn, t: State)
    requires WellFormed(turn)
  {
    match turn
    case Whole(p) => PassSpec(cfg, p) && s == p.before && t == p.after
    case Crashed(p, n) => PassSpec(cfg, p) && s == p.before && t == StateAt(p.before, p.events, n)
    case Elsewhere(e) => !e.call.ByOperator() && Step(cfg, e) && s == e.pre && t == e.post
  }

  /** Turns taken one after the other, through the given states. */
  ghost predicate History(cfg: Config, states: seq<State>, turns: seq<Turn>) {
    && |states| == |turns| + 1 && (forall turn | turn in turns :: WellFormed(turn))
    && forall i | 0 <= i < |turns| :: Taken(cfg, states[i], turns[i], states[i + 1])
  }

  lemma TurnIsRun(cfg: Config, s: State, turn: Turn, t: State)
    requires WellFormed(turn) && Taken(cfg, s, turn, t)
    ensures Run(cfg, s, EventsOf(turn), t)
  {
    match turn
    case Whole(_) =>
    case Crashed(p, n) =>
      RunUpTo(cfg, p.before, p.events, p.after, n);
      StateBefore(p.before, p.events, p.after, n);
    case Elsewhere(e) =>
      var es := [e];
      assert StepAt(cfg, es, 0);
  }

  /** Passes, crashes and outside events in any order make a run, so what holds of every run holds of them. */
  lemma {:induction false} HistoryIsRun(cfg: Config, states: seq<State>, turns: seq<Turn>)
    requires History(cfg, states, turns)
    ensures Run(cfg, states[0], AllEvents(turns), states[|turns|])
    decreases |turns|
  {
    if turns != [] {
      assert Taken(cfg, states[0], turns[0], states[0 + 1]);
      TurnIsRun(cfg, states[0], turns[0], states[1]);
      forall i | 0 <= i < |turns[1..]| ensures Taken(cfg, states[1..][i], turns[1..][i], states[1..][i + 1]) {
        assert Taken(cfg, states[i + 1], turns[i + 1], states[i + 1 + 1]);
      }
      HistoryIsRun(cfg, states[1..], turns[1..]);
      RunConcat(cfg, states[0], EventsOf(turns[0]), states[1], AllEvents(turns[1..]), states[|turns|]);
    }
  }
}
