/** What holds of every run: the operator and its faults, users and outsiders, in any order. */
module Runs {
  import opened Wrappers
  import opened Names
  import opened Finalizers
  import opened Api
  import opened Features
  import opened Protocol

  /** A property that every event keeps holds throughout. */
  lemma Always(inv: State -> bool, s: State, es: seq<Event>, t: State)
    requires Linked(s, es, t) && inv(s)
    requires forall i | 0 <= i < |es| && inv(es[i].pre) :: inv(es[i].post)
    ensures inv(t) && forall i | 0 <= i < |es| :: inv(es[i].pre) && inv(es[i].post)
  {
    for k := 0 to |es|
      invariant forall i | 0 <= i < k :: inv(es[i].pre) && inv(es[i].post)
    {
      StateBefore(s, es, t, k);
    }
  }

  // ---------------------------------------------------------------- what the operator holds fits the store

  /** The copy is the stored object or an earlier version of it; nobody else writes its status. */
  predicate Fits(c: Object, stored: Option<Object>) {
    && (FINALIZER in c.finalizers ==> stored.Some? && FINALIZER in stored.value.finalizers)
    && (stored.Some? ==>
          var o := stored.value;
          && o.status == c.status && c.version <= o.version && (c.version == o.version ==> o == c)
          && (c.deleting ==> o.deleting))
  }

  predicate Coherent(u: State) { u.copy.Some? ==> Fits(u.copy.value, u.stored) }

  lemma UserStepKeepsFinalizer(e: Event)
    requires !e.call.ByOperator() && OthersDone(e) && e.pre.stored.Some? && FINALIZER in e.pre.stored.value.finalizers
    ensures e.post.stored.Some? && FINALIZER in e.post.stored.value.finalizers
  {
    if e.call.UserEdit? {
      assert FINALIZER in multiset(e.call.finalizers);
    }
  }

  lemma CoherentStep(cfg: Config, e: Event)
    requires Step(cfg, e) && Coherent(e.pre)
    ensures Coherent(e.post)
  {
    if !e.call.ByOperator() && e.pre.stored.Some? && FINALIZER in e.pre.stored.value.finalizers {
      UserStepKeepsFinalizer(e);
    }
  }

  lemma StaysCoherent(cfg: Config, s: State, es: seq<Event>, t: State)
    requires Run(cfg, s, es, t) && Coherent(s)
    ensures Coherent(t) && forall i | 0 <= i < |es| :: Coherent(es[i].pre) && Coherent(es[i].post)
  {
    forall i | 0 <= i < |es| && Coherent(es[i].pre) ensures Coherent(es[i].post) {
      assert StepAt(cfg, es, i);
      CoherentStep(cfg, es[i]);
    }
    Always(Coherent, s, es, t);
  }

  /** An update that the API server accepts is made from the stored object itself. */
  lemma AcceptedIsCurrent(cfg: Config, s: State, obj: Object)
    requires UpdateAllowed(cfg, s, obj) && SameVersion(s, obj) && Coherent(s)
    ensures s.stored == s.copy
  {
  }

  // ---------------------------------------------------------------- write-once identity

  predicate KeepsIdentity(o: Object, u: State) {
    u.stored.Some? ==>
      var p := u.stored.value;
      && (o.status.arn != "" ==> p.status.arn == o.status.arn)
      && (o.status.location != "" ==> p.status.location == o.status.location)
      && (o.deleting ==> p.deleting)
  }

  lemma IdentityUpdate(cfg: Config, s: State, obj: Object)
    requires UpdateAllowed(cfg, s, obj) && s.stored == s.copy
    ensures KeepsIdentity(s.stored.value, s.(stored := Some(obj)))
  {
  }

  lemma IdentityStep(cfg: Config, o: Object, e: Event)
    requires Step(cfg, e) && Coherent(e.pre) && KeepsIdentity(o, e.pre)
    ensures KeepsIdentity(o, e.post)
  {
    if e.call.Update? && SameVersion(e.pre, e.call.obj) {
      AcceptedIsCurrent(cfg, e.pre, e.call.obj);
      IdentityUpdate(cfg, e.pre, e.call.obj);
    }
  }

  /** Once the ARN or the location is recorded it never changes, and deletion is never taken back. */
  lemma WriteOnce(cfg: Config, s: State, es: seq<Event>, t: State)
    requires Run(cfg, s, es, t) && Coherent(s) && s.stored.Some?
    ensures KeepsIdentity(s.stored.value, t)
    ensures forall i | 0 <= i < |es| :: KeepsIdentity(s.stored.value, es[i].pre)
  {
    var o := s.stored.value;
    StaysCoherent(cfg, s, es, t);
    forall i | 0 <= i < |es| && KeepsIdentity(o, es[i].pre) ensures KeepsIdentity(o, es[i].post) {
      assert StepAt(cfg, es, i);
      IdentityStep(cfg, o, es[i]);
    }
    Always(u => KeepsIdentity(o, u), s, es, t);
  }

  // ---------------------------------------------------------------- one bucket for ever

  predicate Changes(req: Request) { req.Configure? || req.Delete? || req.Empty? }

  lemma TargetStep(cfg: Config, e: Event)
    requires Step(cfg, e) && e.call.Api? && Coherent(e.pre) && ':' !in cfg.partition
    ensures e.pre.stored.Some?
    ensures Changes(e.call.req) ==> e.pre.stored.value.status.arn != ""
    ensures e.pre.stored.value.status.arn != "" ==>
              ArnResource(e.pre.stored.value.status.arn) == Some(e.call.req.bucket)
  {
    ArnRoundTrip(cfg.partition, e.call.req.bucket);
  }

  /** After the ARN is recorded every call, whatever users do to the spec, is about the recorded bucket. */
  lemma OneTarget(cfg: Config, s: State, es: seq<Event>, t: State, i: nat, j: nat)
    requires Run(cfg, s, es, t) && Coherent(s) && ':' !in cfg.partition && i <= j < |es|
    requires es[i].pre.stored.Some? && es[i].pre.stored.value.status.arn != "" && es[j].call.Api?
    ensures Some(es[j].call.req.bucket) == ArnResource(es[i].pre.stored.value.status.arn)
  {
    StaysCoherent(cfg, s, es, t);
    RunFrom(cfg, s, es, t, i);
    StateBefore(s, es, t, i);
    WriteOnce(cfg, es[i].pre, es[i..], t);
    assert es[i..][j - i] == es[j];
    assert StepAt(cfg, es, j);
    TargetStep(cfg, es[j]);
  }

  /** All calls that change or delete a bucket, in a whole run, are about one bucket. */
  lemma OneBucket(cfg: Config, s: State, es: seq<Event>, t: State, i: nat, j: nat)
    requires Run(cfg, s, es, t) && Coherent(s) && ':' !in cfg.partition && i <= j < |es|
    requires es[i].call.Api? && Changes(es[i].call.req) && es[j].call.Api? && Changes(es[j].call.req)
    ensures es[i].call.req.bucket == es[j].call.req.bucket
  {
    StaysCoherent(cfg, s, es, t);
    assert StepAt(cfg, es, i);
    TargetStep(cfg, es[i]);
    OneTarget(cfg, s, es, t, i, j);
    OneTarget(cfg, s, es, t, i, i);
  }

  // ---------------------------------------------------------------- where the ARN comes from

  predicate Exchanged(e: Event, x: Exchange) { e.call == Protocol.Api(x.req) && e.reply == x.reply }

  /** The operator's last call before event `j` was the request of `x`, with its reply. */
  predicate LastCallWas(es: seq<Event>, j: int, x: Exchange)
    requires 0 <= j < |es|
  {
    exists i :: 0 <= i < j && Exchanged(es[i], x) && forall k | i < k < j :: !es[k].call.ByOperator()
  }

  lemma {:induction false} LastIsLastCall(cfg: Config, s: State, es: seq<Event>, t: State, j: nat)
    requires Run(cfg, s, es, t) && s.last.None? && j < |es| && es[j].pre.last.Some?
    ensures LastCallWas(es, j, es[j].pre.last.value)
  {
    var x := es[j].pre.last.value;
    StateBefore(s, es, t, j);
    var e := es[j - 1];
    assert StepAt(cfg, es, j - 1);
    if e.call.ByOperator() {
      assert Exchanged(e, x);
    } else {
      LastIsLastCall(cfg, s, es, t, j - 1);
      var i :| 0 <= i < j - 1 && Exchanged(es[i], x) && forall k | i < k < j - 1 :: !es[k].call.ByOperator();
      assert forall k | i < k < j :: !es[k].call.ByOperator();
    }
  }

  /** The bucket was created by the operator's last call. */
  predicate JustCreated(x: Exchange, bucket: string) { x.req.Create? && x.req.bucket == bucket && x.reply.Ack? }

  /** The user asked to acquire the bucket, and S3 gave a location for it that does not disagree. */
  predicate JustLocated(cfg: Config, o: Object, x: Exchange) {
    && o.spec.ownershipStrategy == Acquire && x.req == Locate(o.spec.bucket) && x.reply.Location?
    && (x.reply.constraint.Some? ==>
          x.reply.constraint.value == if o.spec.region == "" then cfg.region else o.spec.region)
  }

  /** Event `j` records the ARN of the bucket in the spec, for a good reason. */
  ghost predicate RecordsArn(cfg: Config, es: seq<Event>, j: int)
    requires 0 <= j < |es|
  {
    var e := es[j];
    && e.call.Update? && e.pre.stored.Some? && e.pre.stored.value.status.arn == ""
    && var o := e.pre.stored.value;
       && e.post.stored.Some? && e.post.stored.value.status.arn == ArnOf(cfg, o.spec)
       && exists x :: LastCallWas(es, j, x) && (JustCreated(x, o.spec.bucket) || JustLocated(cfg, o, x))
  }

  lemma RecordStep(cfg: Config, s: State, es: seq<Event>, t: State, j: nat)
    requires Run(cfg, s, es, t) && Coherent(s) && s.last.None? && j < |es|
    requires es[j].pre.stored.Some? && es[j].pre.stored.value.status.arn == ""
    requires es[j].post.stored.Some? && es[j].post.stored.value.status.arn != ""
    ensures RecordsArn(cfg, es, j)
  {
    StaysCoherent(cfg, s, es, t);
    assert StepAt(cfg, es, j);
    AcceptedIsCurrent(cfg, es[j].pre, es[j].call.obj);
    LastIsLastCall(cfg, s, es, t, j);
    var o, x := es[j].pre.stored.value, es[j].pre.last.value;
    assert JustCreated(x, o.spec.bucket) || JustLocated(cfg, o, x);
  }

  predicate Blank(u: State) { u.stored.Some? ==> u.stored.value.status.arn == "" }

  lemma FirstRecord(cfg: Config, s: State, es: seq<Event>, t: State, j: nat)
    requires Run(cfg, s, es, t) && Coherent(s) && s.last.None? && j < |es|
    requires Blank(es[j].pre) && !Blank(es[j].post) && t.stored.Some?
    ensures RecordsArn(cfg, es, j) && es[j].post.stored.value.status.arn == t.stored.value.status.arn
  {
    assert StepAt(cfg, es, j);
    RecordStep(cfg, s, es, t, j);
    StaysCoherent(cfg, s, es, t);
    RunFrom(cfg, s, es, t, j + 1);
    WriteOnce(cfg, es[j].post, es[j + 1..], t);
  }

  /** An ARN that appears during a run was recorded after a successful create of that bucket, or by acquisition. */
  lemma Provenance(cfg: Config, s: State, es: seq<Event>, t: State)
    requires Run(cfg, s, es, t) && Coherent(s) && s.last.None?
    requires s.stored.Some? && s.stored.value.status.arn == "" && t.stored.Some? && t.stored.value.status.arn != ""
    ensures exists j :: 0 <= j < |es| && RecordsArn(cfg, es, j)
                        && es[j].post.stored.value.status.arn == t.stored.value.status.arn
  {
    if forall i | 0 <= i < |es| && Blank(es[i].pre) :: Blank(es[i].post) {
      Always(Blank, s, es, t);
    } else {
      var j :| 0 <= j < |es| && Blank(es[j].pre) && !Blank(es[j].post);
      FirstRecord(cfg, s, es, t, j);
    }
  }

  /** The operator's call changes or removes a bucket that was there. */
  predicate Alters(e: Event, b: string) {
    e.call.ByOperator() && b in e.pre.buckets && (b !in e.post.buckets || e.post.buckets[b] != e.pre.buckets[b])
  }

  lemma AlterStep(cfg: Config, e: Event, b: string)
    requires Step(cfg, e) && Alters(e, b)
    ensures e.call.Api? && e.call.req.bucket == b && Changes(e.call.req)
  {
  }

  /**
    Ownership: whatever outsiders create and users edit, the operator changes or deletes an existing
    bucket only after recording that bucket's ARN, which it did on creating or on acquiring it.
   */
  lemma OwnershipSafety(cfg: Config, s: State, es: seq<Event>, t: State, k: nat, b: string)
    requires Run(cfg, s, es, t) && Coherent(s) && s.last.None? && ':' !in cfg.partition
    requires s.stored.Some? && s.stored.value.status.arn == ""
    requires k < |es| && Alters(es[k], b)
    ensures exists j :: 0 <= j < k && RecordsArn(cfg, es, j) && es[j].pre.stored.value.spec.bucket == b
  {
    StaysCoherent(cfg, s, es, t);
    assert StepAt(cfg, es, k);
    AlterStep(cfg, es[k], b);
    TargetStep(cfg, es[k]);
    var fs, u := es[..k], es[k].pre;
    RunUpTo(cfg, s, es, t, k);
    Provenance(cfg, s, fs, u);
    var j :| 0 <= j < |fs| && RecordsArn(cfg, fs, j)
             && fs[j].post.stored.value.status.arn == u.stored.value.status.arn;
    ArnRoundTrip(cfg.partition, es[j].pre.stored.value.spec.bucket);
    RecordedInPrefix(cfg, es, k, j);
  }

  lemma RecordedInPrefix(cfg: Config, es: seq<Event>, k: nat, j: nat)
    requires j < k <= |es| && RecordsArn(cfg, es[..k], j)
    ensures RecordsArn(cfg, es, j)
  {
    var fs, o := es[..k], es[j].pre.stored.value;
    var x :| LastCallWas(fs, j, x) && (JustCreated(x, o.spec.bucket) || JustLocated(cfg, o, x));
    var i :| 0 <= i < j && Exchanged(fs[i], x) && forall m | i < m < j :: !fs[m].call.ByOperator();
    assert Exchanged(es[i], x);
    forall m | i < m < j ensures !es[m].call.ByOperator() { assert fs[m] == es[m]; }
    assert LastCallWas(es, j, x);
  }

  // ---------------------------------------------------------------- no resurrection

  /** Event `g` is the Get that begins the pass to which event `i` belongs. */
  predicate BeginsPassOf(es: seq<Event>, g: nat, i: nat) {
    g < i < |es| && es[g].call.Get? && forall k | g < k < i :: !es[k].call.Get?
  }

  /**
    What a pass does is decided by what its Get saw: with the deletion timestamp set, its calls are
    deletes, and emptying under Force right after a delete was refused for the bucket's objects;
    without it, none of its calls is either.
   */
  lemma NoResurrection(cfg: Config, s: State, es: seq<Event>, t: State, g: nat, i: nat)
    requires Run(cfg, s, es, t) && BeginsPassOf(es, g, i) && es[i].call.Api?
    ensures es[g].pre.stored.Some? && es[i].pre.copy.Some?
    ensures (es[i].call.req.Delete? || es[i].call.req.Empty?) <==> es[g].pre.stored.value.deleting
    ensures es[i].call.req.Empty? ==>
              && es[i].pre.copy.value.spec.deleteStrategy == Force
              && es[i].pre.last == Some(Exchange(Request.Delete(es[i].call.req.bucket), Failure(BucketNotEmpty)))
  {
    ReadAtGet(cfg, s, es, t, g, i);
    assert StepAt(cfg, es, i);
  }

  /** Until the next Get the operator holds the object under deletion, or not, as the last Get saw it. */
  lemma {:induction false} ReadAtGet(cfg: Config, s: State, es: seq<Event>, t: State, g: nat, k: nat)
    requires Run(cfg, s, es, t) && BeginsPassOf(es, g, k)
    ensures es[k].pre.copy.Some? ==>
              es[g].pre.stored.Some? && es[k].pre.copy.value.deleting == es[g].pre.stored.value.deleting
  {
    assert StepAt(cfg, es, k - 1) && Joined(es, k - 1);
    if k > g + 1 {
      ReadAtGet(cfg, s, es, t, g, k - 1);
    }
  }

  /** The timestamp stays: every pass that begins after it was set creates and configures nothing. */
  lemma NothingAfterDeletion(cfg: Config, s: State, es: seq<Event>, t: State, g: nat, i: nat)
    requires Run(cfg, s, es, t) && Coherent(s) && s.stored.Some? && s.stored.value.deleting
    requires BeginsPassOf(es, g, i) && es[i].call.Api?
    ensures es[i].call.req.Delete? || es[i].call.req.Empty?
  {
    WriteOnce(cfg, s, es, t);
    NoResurrection(cfg, s, es, t, g, i);
  }

  /** Under the strategy Skip the operator neither deletes nor empties a bucket. */
  lemma SkipSpares(cfg: Config, s: State, es: seq<Event>, t: State, i: nat)
    requires Run(cfg, s, es, t) && i < |es| && es[i].call.Api?
    requires es[i].call.req.Delete? || es[i].call.req.Empty?
    ensures es[i].pre.copy.Some?
    ensures var o := es[i].pre.copy.value;
            && o.deleting && "delete-bucket.finalizers.aws.grepplabs.com" in o.finalizers
            && o.spec.deleteStrategy != Skip && (es[i].call.req.Empty? ==> o.spec.deleteStrategy == Force)
            && o.status.arn != "" && ArnResource(o.status.arn) == Some(es[i].call.req.bucket)
  {
    assert StepAt(cfg, es, i);
  }

  /** Every other call to S3 is made for a valid object that carries the finalizer; only an owned bucket is changed. */
  lemma ValidatedFirst(cfg: Config, s: State, es: seq<Event>, t: State, i: nat)
    requires Run(cfg, s, es, t) && i < |es| && es[i].call.Api?
    requires !es[i].call.req.Delete? && !es[i].call.req.Empty?
    ensures es[i].pre.copy.Some?
    ensures var o := es[i].pre.copy.value;
            && !o.deleting && "delete-bucket.finalizers.aws.grepplabs.com" in o.finalizers
            && Validate(cfg, o).None? && es[i].call.req.bucket == o.spec.bucket
            && (es[i].call.req.Configure? ==> o.status.arn == "arn:" + cfg.partition + ":s3:::" + o.spec.bucket)
            && (es[i].call.req.Create? ==>
                  && es[i].call.req.acl == (if o.spec.acl == "" then "private" else o.spec.acl)
                  && es[i].call.req.region == (if o.spec.region == "" then cfg.region else o.spec.region))
  {
    assert StepAt(cfg, es, i);
    ArnSpelled(cfg.partition, es[i].pre.copy.value.spec.bucket);
  }

  /**
    A bucket is created only under a stored finalizer; the finalizer is taken off only when the
    pass read the strategy Skip or no ARN that parses, or was told that the recorded bucket is gone.
   */
  lemma FinalizerGuards(cfg: Config, s: State, es: seq<Event>, t: State, i: nat)
    requires Run(cfg, s, es, t) && Coherent(s) && i < |es| && es[i].call.ByOperator()
    ensures (es[i].call.Api? && es[i].call.req.Create?)
            || (exists b :: b in es[i].post.buckets && b !in es[i].pre.buckets) ==>
              es[i].pre.stored.Some? && FINALIZER in es[i].pre.stored.value.finalizers
    ensures es[i].pre.stored.Some? && FINALIZER in es[i].pre.stored.value.finalizers
            && (es[i].post.stored.Some? ==> FINALIZER !in es[i].post.stored.value.finalizers) ==>
              var o := es[i].pre.stored.value;
              && o.deleting
              && (|| o.spec.deleteStrategy == Skip || o.status.arn == "" || ArnResource(o.status.arn).None?
                  || (var call := Request.Delete(ArnResource(o.status.arn).value);
                      || es[i].pre.last == Some(Exchange(call, Ack))
                      || es[i].pre.last == Some(Exchange(call, Failure(NoSuchBucket)))))
  {
    StaysCoherent(cfg, s, es, t);
    assert StepAt(cfg, es, i);
    if es[i].call.Update? && SameVersion(es[i].pre, es[i].call.obj) {
      AcceptedIsCurrent(cfg, es[i].pre, es[i].call.obj);
    }
  }

  // ---------------------------------------------------------------- what updates never touch

  /** Operator steps keep the spec, the finalizers of others in order and number, and ours out of excess. */
  predicate LeavesUsersData(e: Event) {
    e.call.ByOperator() && e.pre.stored.Some? && e.post.stored.Some? ==>
      var o, p := e.pre.stored.value, e.post.stored.value;
      && p.spec == o.spec
      && Without(p.finalizers, FINALIZER) == Without(o.finalizers, FINALIZER)
      && (multiset(p.finalizers)[FINALIZER] <= 1 || p.finalizers == o.finalizers)
  }

  lemma UserDataUpdate(cfg: Config, s: State, obj: Object)
    requires UpdateAllowed(cfg, s, obj)
    ensures obj.spec == s.copy.value.spec
    ensures Without(obj.finalizers, FINALIZER) == Without(s.copy.value.finalizers, FINALIZER)
    ensures multiset(obj.finalizers)[FINALIZER] <= 1 || obj.finalizers == s.copy.value.finalizers
  {
    var finalizers := s.copy.value.finalizers;
    WithoutAppend(finalizers, FINALIZER, FINALIZER);
    WithoutTwice(finalizers, FINALIZER);
    WithoutCounts(finalizers, FINALIZER);
  }

  lemma UserDataStep(cfg: Config, e: Event)
    requires Step(cfg, e) && Coherent(e.pre)
    ensures LeavesUsersData(e)
  {
    if e.call.Update? && SameVersion(e.pre, e.call.obj) {
      AcceptedIsCurrent(cfg, e.pre, e.call.obj);
      UserDataUpdate(cfg, e.pre, e.call.obj);
    }
  }

  predicate OursOnce(u: State) { u.stored.Some? ==> multiset(u.stored.value.finalizers)[FINALIZER] <= 1 }

  /** The stored spec is never altered by an update; finalizer lists are kept, with ours at most once. */
  lemma UsersDataKept(cfg: Config, s: State, es: seq<Event>, t: State)
    requires Run(cfg, s, es, t) && Coherent(s)
    ensures forall i | 0 <= i < |es| :: LeavesUsersData(es[i])
    ensures OursOnce(s) ==> OursOnce(t)
  {
    StaysCoherent(cfg, s, es, t);
    forall i | 0 <= i < |es| ensures LeavesUsersData(es[i]) {
      assert StepAt(cfg, es, i);
      UserDataStep(cfg, es[i]);
    }
    if OursOnce(s) {
      forall i | 0 <= i < |es| && OursOnce(es[i].pre) ensures OursOnce(es[i].post) {
        assert StepAt(cfg, es, i);
        assert LeavesUsersData(es[i]);
      }
      Always(OursOnce, s, es, t);
    }
  }

  lemma VersionedAfter(bs: Buckets, req: Request, b: string)
    requires b in bs && b in Served(bs, req) && bs[b].versioning != Unversioned
    requires req.Configure? && req.change.PutVersioning? ==> req.change.status != Unversioned
    ensures Served(bs, req)[b].versioning != Unversioned
  {
  }

  /** Operator steps never take a bucket back to the unversioned state, as long as it is the same bucket. */
  lemma VersioningNeverUndone(cfg: Config, s: State, es: seq<Event>, t: State, i: nat, b: string)
    requires Run(cfg, s, es, t) && i < |es| && es[i].call.ByOperator()
    requires b in es[i].pre.buckets && b in es[i].post.buckets && es[i].pre.buckets[b].versioning != Unversioned
    ensures es[i].post.buckets[b].versioning != Unversioned
  {
    var e := es[i];
    assert StepAt(cfg, es, i);
    if e.call.Api? && e.post.buckets != e.pre.buckets { VersionedAfter(e.pre.buckets, e.call.req, b); }
  }

  // ---------------------------------------------------------------- no leak

  /** A bucket that S3 has just said to be gone is not there, unless an outsider has made a new one. */
  predicate Gone(u: State) {
    u.last.Some? && u.last.value.req.Delete? && DeleteAnswered(u, u.last.value.req.bucket) ==>
      var b := u.last.value.req.bucket;
      b in u.buckets ==> !u.buckets[b].byOperator
  }

  /** The operator has just created the bucket, and nobody has written the object since it was read. */
  predicate Recordable(cfg: Config, u: State, b: string) {
    && LastCreated(u, b) && u.copy.Some? && u.copy == u.stored && Live(cfg, u.copy.value)
    && u.copy.value.spec.bucket == b && u.copy.value.status.arn == ""
  }

  predicate Held(cfg: Config, u: State, b: string) {
    && u.stored.Some? && FINALIZER in u.stored.value.finalizers
    && (u.stored.value.status.arn == BucketArn(cfg.partition, b) || Recordable(cfg, u, b))
  }

  /** Every bucket the operator created is held by the object, or about to be. */
  predicate NoneLeaked(cfg: Config, u: State) {
    forall b | b in u.buckets && u.buckets[b].byOperator :: Held(cfg, u, b)
  }

  /** The strategy is not Skip when the operator lets the object go. */
  predicate NotSkipped(e: Event) {
    e.call.Update? && e.pre.copy.Some? && Dying(e.pre.copy.value) ==> e.pre.copy.value.spec.deleteStrategy != Skip
  }

  /** A bucket created by the operator's last call waits for its ARN to be recorded. */
  predicate Waiting(u: State) {
    Owes(u) && u.last.value.req.Create? && var b := u.last.value.req.bucket; b in u.buckets && u.buckets[b].byOperator
  }

  /**
    The ARN of a new bucket gets lost: no ARN is recorded, and either a create takes effect without
    being acknowledged or with the object written since it was read, or the record is not made.
   */
  predicate LosesCreate(e: Event) {
    && e.pre.stored.Some? && e.pre.stored.value.status.arn == ""
    && match e.call
       case Api(Create(b, _, _)) =>
         b !in e.pre.buckets && b in e.post.buckets && (!e.reply.Ack? || e.pre.copy != e.pre.stored)
       case Update(_) => Waiting(e.pre) && e.post.stored == e.pre.stored
       case Get => Waiting(e.pre)
       case UserEdit(_, _) => Waiting(e.pre)
       case UserDelete => Waiting(e.pre)
       case _ => false
  }

  predicate Tidy(cfg: Config, u: State) { Coherent(u) && Gone(u) && NoneLeaked(cfg, u) }

  lemma TidyCall(cfg: Config, e: Event)
    requires e.call.Api? && Permitted(cfg, e.pre, e.call.req) && ApiDone(e) && Tidy(cfg, e.pre)
    ensures NoneLeaked(cfg, e.post) <==> !LosesCreate(e)
  {
    var req := e.call.req;
    if req.Create? && req.bucket !in e.pre.buckets && req.bucket in e.post.buckets {
      assert NoneLeaked(cfg, e.post) ==> Held(cfg, e.post, req.bucket);
    }
    forall b | b in e.post.buckets && e.post.buckets[b].byOperator && b in e.pre.buckets
      ensures Held(cfg, e.post, b)
    {
      assert Held(cfg, e.pre, b);
    }
  }

  lemma TidyUpdate(cfg: Config, e: Event)
    requires e.call.Update? && UpdateAllowed(cfg, e.pre, e.call.obj) && UpdateDone(e) && Tidy(cfg, e.pre)
    requires NotSkipped(e) && ':' !in cfg.partition
    ensures NoneLeaked(cfg, e.post) <==> !LosesCreate(e)
  {
    if e.post.stored == e.pre.stored {
      if Waiting(e.pre) { assert NoneLeaked(cfg, e.post) ==> Held(cfg, e.post, e.pre.last.value.req.bucket); }
      assert !LosesCreate(e) ==> NoneLeaked(cfg, e.post) by {
        forall b | b in e.pre.buckets && e.pre.buckets[b].byOperator ensures Held(cfg, e.pre, b) {}
      }
    } else {
      AcceptedIsCurrent(cfg, e.pre, e.call.obj);
      forall b | b in e.post.buckets && e.post.buckets[b].byOperator ensures Held(cfg, e.post, b) {
        assert Held(cfg, e.pre, b);
        ArnRoundTrip(cfg.partition, b);
      }
    }
  }

  lemma TidyOthers(cfg: Config, e: Event)
    requires (e.call.Get? && GetDone(e)) || (!e.call.ByOperator() && OthersDone(e))
    requires Tidy(cfg, e.pre)
    ensures NoneLeaked(cfg, e.post) <==> !LosesCreate(e)
  {
    if LosesCreate(e) {
      assert !Held(cfg, e.post, e.pre.last.value.req.bucket);
    }
    forall b | b in e.post.buckets && e.post.buckets[b].byOperator && !LosesCreate(e) ensures Held(cfg, e.post, b) {
      assert Held(cfg, e.pre, b);
      if !e.call.ByOperator() { UserStepKeepsFinalizer(e); }
    }
  }

  lemma GoneStep(cfg: Config, e: Event)
    requires Step(cfg, e) && Gone(e.pre)
    ensures Gone(e.post)
  {
  }

  lemma TidyStep(cfg: Config, e: Event)
    requires Step(cfg, e) && Tidy(cfg, e.pre) && NotSkipped(e) && ':' !in cfg.partition
    ensures Tidy(cfg, e.post) <==> !LosesCreate(e)
  {
    CoherentStep(cfg, e);
    GoneStep(cfg, e);
    if e.call.Api? {
      TidyCall(cfg, e);
    } else if e.call.Update? {
      TidyUpdate(cfg, e);
    } else {
      TidyOthers(cfg, e);
    }
  }

  /**
    As long as the strategy at release is not Skip, every bucket the operator created is held by the
    object throughout a run exactly when no create gets lost; and then none outlives the object.
   */
  lemma NoLeak(cfg: Config, s: State, es: seq<Event>, t: State)
    requires Run(cfg, s, es, t) && Tidy(cfg, s) && ':' !in cfg.partition
    requires forall i | 0 <= i < |es| :: NotSkipped(es[i])
    ensures (forall i | 0 <= i < |es| :: NoneLeaked(cfg, es[i].post)) <==>
            (forall i | 0 <= i < |es| :: !LosesCreate(es[i]))
    ensures (forall i | 0 <= i < |es| :: !LosesCreate(es[i])) && t.stored.None? ==>
              forall b | b in t.buckets :: !t.buckets[b].byOperator
  {
    if forall i | 0 <= i < |es| :: !LosesCreate(es[i]) {
      forall i | 0 <= i < |es| && Tidy(cfg, es[i].pre) ensures Tidy(cfg, es[i].post) {
        assert StepAt(cfg, es, i);
        TidyStep(cfg, es[i]);
      }
      Always(u => Tidy(cfg, u), s, es, t);
    } else {
      LeaksWhenLost(cfg, s, es, t);
    }
  }

  lemma LeaksWhenLost(cfg: Config, s: State, es: seq<Event>, t: State)
    requires Run(cfg, s, es, t) && Tidy(cfg, s) && ':' !in cfg.partition
    requires forall i | 0 <= i < |es| :: NotSkipped(es[i])
    requires exists i :: 0 <= i < |es| && LosesCreate(es[i])
    ensures exists i :: 0 <= i < |es| && !NoneLeaked(cfg, es[i].post)
  {
    if forall i | 0 <= i < |es| :: NoneLeaked(cfg, es[i].post) {
      forall i | 0 <= i < |es| && Tidy(cfg, es[i].pre) ensures Tidy(cfg, es[i].post) {
        assert StepAt(cfg, es, i);
        CoherentStep(cfg, es[i]);
        GoneStep(cfg, es[i]);
      }
      Always(u => Tidy(cfg, u), s, es, t);
      var i :| 0 <= i < |es| && LosesCreate(es[i]);
      assert StepAt(cfg, es, i);
      TidyStep(cfg, es[i]);
    }
  }

  // ---------------------------------------------------------------- the ACL in the status

  /**
    Every create and ACL change that takes effect is acknowledged, and the update that follows it
    succeeds, before users touch the object.
   */
  predicate Records(e: Event) {
    && (Owes(e.pre) ==> e.call.OutsiderSet? || e.call.OutsiderRemove? || (e.call.Update? && e.reply.Ack?))
    && (e.call.Api? && Recorded(e.call.req) && !e.reply.Ack? ==> e.post.buckets == e.pre.buckets)
  }

  /** Outsiders leave the ACL of a recorded or just created bucket alone, and put no other bucket in its place. */
  predicate AclLeftAlone(cfg: Config, e: Event) {
    e.call.OutsiderSet?
    && (|| (e.pre.stored.Some? && e.pre.stored.value.status.arn == BucketArn(cfg.partition, e.call.name))
        || (Owes(e.pre) && e.pre.last.value.req.bucket == e.call.name)) ==>
      e.call.name in e.pre.buckets && e.call.bucket.acl == e.pre.buckets[e.call.name].acl
  }

  /** The bucket that is to be recorded, if it is still there, has the ACL that will be recorded. */
  predicate PendingAcl(u: State) {
    Owes(u) && u.copy.Some? ==>
      var b, spec := u.last.value.req.bucket, u.copy.value.spec;
      b == spec.bucket && (b in u.buckets ==> u.buckets[b].acl == DesiredAcl(spec))
  }

  /** The status gives another ACL for the recorded bucket `b`. */
  predicate Contradicts(cfg: Config, u: State, b: string, acl: string) {
    && u.stored.Some? && u.stored.value.status.arn == BucketArn(cfg.partition, b)
    && u.stored.value.status.acl != "" && u.stored.value.status.acl != acl
  }

  /** The status gives the ACL of the recorded bucket, or none, unless a change is about to be recorded. */
  predicate Mirrors(cfg: Config, u: State) {
    && PendingAcl(u)
    && (u.stored.Some? && u.stored.value.status.arn == "" ==> u.stored.value.status.acl == "")
    && (forall b | b in u.buckets && Contradicts(cfg, u, b, u.buckets[b].acl) ::
          Owes(u) && b == u.last.value.req.bucket)
  }

  /** An ACL change waits to be recorded, and the status says otherwise. */
  predicate AclWaiting(cfg: Config, u: State) {
    Owes(u) && var b := u.last.value.req.bucket; b in u.buckets && Contradicts(cfg, u, b, u.buckets[b].acl)
  }

  /**
    The status gets out of step: an ACL that it contradicts takes effect without being acknowledged,
    or is not recorded, or is set by an outsider.
   */
  predicate LosesAcl(cfg: Config, e: Event) {
    match e.call
    case Get => AclWaiting(cfg, e.pre)
    case Api(Create(b, acl, _)) =>
      !e.reply.Ack? && b !in e.pre.buckets && b in e.post.buckets && Contradicts(cfg, e.pre, b, acl)
    case Api(Configure(b, PutAcl(acl))) =>
      !e.reply.Ack? && e.post.buckets != e.pre.buckets && Contradicts(cfg, e.pre, b, acl)
    case Update(_) => AclWaiting(cfg, e.pre) && e.post.stored == e.pre.stored
    case OutsiderSet(b, bucket) =>
      if Owes(e.pre) && e.pre.last.value.req.bucket == b then
        e.pre.copy.Some? && bucket.acl != DesiredAcl(e.pre.copy.value.spec)
      else Contradicts(cfg, e.pre, b, bucket.acl)
    case _ => false
  }

  lemma MirrorUpdate(cfg: Config, s: State, obj: Object)
    requires UpdateAllowed(cfg, s, obj) && s.stored == s.copy && Mirrors(cfg, s)
    ensures Mirrors(cfg, s.(stored := Some(obj), last := None))
  {
    var o := s.stored.value;
    var t := s.(stored := Some(obj), last := None);
    forall b | b in s.buckets && obj.status.arn == BucketArn(cfg.partition, b)
      ensures !Contradicts(cfg, t, b, s.buckets[b].acl)
    {
      if obj.status.arn == ArnOf(cfg, o.spec) { ArnInjective(cfg.partition, b, o.spec.bucket); }
    }
  }

  /** The ACL of a bucket after a request comes from the request or was there before. */
  lemma AclAfter(bs: Buckets, req: Request, b: string)
    requires b in Served(bs, req)
    ensures || (b in bs && Served(bs, req)[b].acl == bs[b].acl)
            || (req.Create? && req.bucket == b && b !in bs && Served(bs, req)[b].acl == req.acl)
            || (&& req.Configure? && req.change.PutAcl? && req.bucket == b
                && Served(bs, req)[b].acl == req.change.acl)
  {
  }

  /** A call that is not to be recorded, or did not get through, leaves the status in step. */
  lemma MirrorCall(cfg: Config, e: Event)
    requires e.call.Api? && Permitted(cfg, e.pre, e.call.req) && ApiDone(e) && Coherent(e.pre) && Mirrors(cfg, e.pre)
    ensures !LosesAcl(cfg, e) ==> Mirrors(cfg, e.post)
  {
    var req := e.call.req;
    if Owes(e.post) && req.bucket in e.post.buckets {
      assert Truthful(e);
      AclAfter(e.pre.buckets, req, req.bucket);
    }
    if !LosesAcl(cfg, e) {
      forall b | b in e.post.buckets && Contradicts(cfg, e.post, b, e.post.buckets[b].acl)
        ensures Owes(e.post) && b == req.bucket
      {
        if e.post.buckets != e.pre.buckets { AclAfter(e.pre.buckets, req, b); }
      }
    }
  }

  lemma LostCall(cfg: Config, e: Event)
    requires e.call.Api? && Permitted(cfg, e.pre, e.call.req) && ApiDone(e) && Mirrors(cfg, e.pre)
    requires LosesAcl(cfg, e)
    ensures !Mirrors(cfg, e.post)
  {
    var b := e.call.req.bucket;
    assert Contradicts(cfg, e.post, b, e.post.buckets[b].acl);
  }

  lemma MirrorOthers(cfg: Config, e: Event)
    requires !e.call.ByOperator() && OthersDone(e) && Mirrors(cfg, e.pre)
    ensures Mirrors(cfg, e.post) <==> !LosesAcl(cfg, e)
  {
    if e.call.OutsiderSet? && LosesAcl(cfg, e) {
      var b := e.call.name;
      assert e.post.buckets[b].acl == e.call.bucket.acl;
    }
    if !LosesAcl(cfg, e) {
      forall b | b in e.post.buckets && Contradicts(cfg, e.post, b, e.post.buckets[b].acl)
        ensures Owes(e.post) && b == e.post.last.value.req.bucket
      {
        assert (e.call.OutsiderSet? && b == e.call.name) || Contradicts(cfg, e.pre, b, e.pre.buckets[b].acl);
      }
    }
  }

  lemma MirrorStep(cfg: Config, e: Event)
    requires Step(cfg, e) && Coherent(e.pre) && Mirrors(cfg, e.pre)
    ensures Mirrors(cfg, e.post) <==> !LosesAcl(cfg, e)
  {
    if e.call.Api? {
      MirrorCall(cfg, e);
      if LosesAcl(cfg, e) { LostCall(cfg, e); }
    } else if !e.call.ByOperator() {
      MirrorOthers(cfg, e);
    } else if e.call.Update? && e.post.stored != e.pre.stored {
      AcceptedIsCurrent(cfg, e.pre, e.call.obj);
      MirrorUpdate(cfg, e.pre, e.call.obj);
    } else {
      assert AclWaiting(cfg, e.pre) ==>
               var b := e.pre.last.value.req.bucket; Contradicts(cfg, e.post, b, e.post.buckets[b].acl);
    }
  }

  /** Throughout a run the recorded ACL is empty or real exactly when the status never gets out of step. */
  lemma StatusMirrorsAcl(cfg: Config, s: State, es: seq<Event>, t: State)
    requires Run(cfg, s, es, t) && Coherent(s) && Mirrors(cfg, s)
    ensures (forall i | 0 <= i < |es| :: Mirrors(cfg, es[i].post)) <==>
            (forall i | 0 <= i < |es| :: !LosesAcl(cfg, es[i]))
    ensures (forall i | 0 <= i < |es| :: !LosesAcl(cfg, es[i])) ==> Mirrors(cfg, t)
  {
    StaysCoherent(cfg, s, es, t);
    var inv := (u: State) => Mirrors(cfg, u);
    forall i | 0 <= i < |es| && Mirrors(cfg, es[i].pre)
      ensures Mirrors(cfg, es[i].post) <==> !LosesAcl(cfg, es[i])
    {
      assert StepAt(cfg, es, i);
      MirrorStep(cfg, es[i]);
    }
    if (forall i | 0 <= i < |es| :: !LosesAcl(cfg, es[i])) || (forall i | 0 <= i < |es| :: Mirrors(cfg, es[i].post)) {
      Always(inv, s, es, t);
    }
  }

  /** The status never gets out of step if every create and ACL change is recorded and outsiders leave the ACL alone. */
  lemma RecordingSuffices(cfg: Config, s: State, es: seq<Event>, t: State)
    requires Run(cfg, s, es, t) && Coherent(s) && Mirrors(cfg, s)
    requires forall i | 0 <= i < |es| :: Records(es[i]) && AclLeftAlone(cfg, es[i])
    ensures Mirrors(cfg, t) && forall i | 0 <= i < |es| :: !LosesAcl(cfg, es[i])
  {
    StaysCoherent(cfg, s, es, t);
    forall i | 0 <= i < |es| && Mirrors(cfg, es[i].pre) ensures Mirrors(cfg, es[i].post) && !LosesAcl(cfg, es[i]) {
      assert StepAt(cfg, es, i);
      MirrorStep(cfg, es[i]);
    }
    Always(u => Mirrors(cfg, u), s, es, t);
  }

  // ---------------------------------------------------------------- undisturbed runs

  /** Only the operator acts. */
  predicate Undisturbed(es: seq<Event>) { forall i | 0 <= i < |es| :: es[i].call.ByOperator() }

  /** Nobody has interfered since the operator read the object. */
  predicate Quiet(u: State) { u.calm && (u.copy.Some? ==> u.copy == u.stored) }

  lemma QuietStep(cfg: Config, e: Event)
    requires Step(cfg, e) && e.call.ByOperator() && Quiet(e.pre)
    ensures Quiet(e.post)
  {
  }

  /** An owned bucket has another ACL than its status and its spec say. */
  predicate AclWrong(cfg: Config, u: State) {
    && u.stored.Some?
    && var o := u.stored.value;
       && !o.deleting && Owned(cfg, o) && o.status.acl == DesiredAcl(o.spec)
       && o.spec.bucket in u.buckets && u.buckets[o.spec.bucket].acl != DesiredAcl(o.spec)
  }

  lemma AclWrongUpdate(cfg: Config, s: State, obj: Object)
    requires UpdateAllowed(cfg, s, obj) && Quiet(s) && AclWrong(cfg, s)
    ensures AclWrong(cfg, s.(stored := Some(obj)))
  {
  }

  lemma AclWrongStep(cfg: Config, e: Event)
    requires Step(cfg, e) && e.call.ByOperator() && Quiet(e.pre) && AclWrong(cfg, e.pre)
    ensures AclWrong(cfg, e.post)
  {
    if e.call.Api? && e.post.buckets != e.pre.buckets {
      AclAfter(e.pre.buckets, e.call.req, e.pre.stored.value.spec.bucket);
    } else if e.call.Update? && SameVersion(e.pre, e.call.obj) {
      AclWrongUpdate(cfg, e.pre, e.call.obj);
    }
  }

  /** The operator by itself never repairs such an ACL, however many passes it makes. */
  lemma AclStaysWrong(cfg: Config, s: State, es: seq<Event>, t: State)
    requires Run(cfg, s, es, t) && Undisturbed(es) && Quiet(s) && AclWrong(cfg, s)
    ensures AclWrong(cfg, t) && forall i | 0 <= i < |es| :: AclWrong(cfg, es[i].post)
  {
    var inv := (u: State) => Quiet(u) && AclWrong(cfg, u);
    forall i | 0 <= i < |es| && inv(es[i].pre) ensures inv(es[i].post) {
      assert StepAt(cfg, es, i);
      QuietStep(cfg, es[i]);
      AclWrongStep(cfg, es[i]);
    }
    Always(inv, s, es, t);
  }
}
