/**
  The two stores that the reconciler talks to, behind one object: the Kubernetes API
  (`client.Client`) and S3 (`s3iface.S3API`).  Every call may fail on its own account, and users
  and outsiders may act before every call.
 */
module Environment {
  import opened Wrappers
  import opened Api
  import opened Protocol
  import opened Contracts

  /** The in-memory copy of the object that one pass works on. */
  class Instance {
    var obj: Object

    constructor (obj: Object)
      ensures this.obj == obj
    {
      this.obj := obj;
    }
  }

  class World {
    var state: State
    /** The events since the current pass began, with event `opening`. */
    ghost var trace: seq<Event>
    ghost var opening: Event

    /** A pass is under way. */
    ghost predicate Valid(cfg: Config)
      reads this
    {
      trace != [] && trace[0] == opening && OneGet(trace) && Run(cfg, opening.pre, trace, state)
    }

    ghost function LastEvent(): Event
      requires trace != []
      reads this
    {
      trace[|trace| - 1]
    }

    constructor (stored: Option<Object>, buckets: Buckets)
      ensures state == State(stored, buckets, None, None, false, {})
    {
      var s := State(stored, buckets, None, None, false, {});
      state := s;
      trace := [];
      opening := Event(Call.Get, Ack, s, s);
    }

    /** `client.Get`, with which a pass begins; nothing found is no failure. */
    method Get(ghost cfg: Config) returns (found: Option<Object>, ok: bool)
      modifies this
      ensures Valid(cfg) && trace == [opening]
      ensures opening == Event(Call.Get, if ok then Ack else Failure(OtherError), old(state), state)
      ensures var copy := if ok then old(state).stored else None;
              state == old(state).(copy := copy, last := None, calm := true, sent := {})
      ensures ok ==> found == state.stored
    {
      ok := *;
      found := if ok then state.stored else None;
      ghost var met := state;
      state := state.(copy := found, last := None, calm := true, sent := {});
      opening := Event(Call.Get, if ok then Ack else Failure(OtherError), met, state);
      trace := [opening];
      assert StepAt(cfg, trace, 0);
    }

    /** Something that a user or an outsider does, or nothing. */
    method Disturb(ghost cfg: Config)
      requires Valid(cfg)
      modifies `state, `trace
      ensures Valid(cfg) && |old(trace)| <= |trace| && Drifted(old(state), state)
    {
      var call: Call := *;
      var after := state;
      if call.UserDelete? && state.stored.Some? {
        after := state.(stored := Persisted(state.stored.value.(deleting := true)));
      } else if call.UserEdit? && state.stored.Some?
                && multiset(call.finalizers)[FINALIZER] == multiset(state.stored.value.finalizers)[FINALIZER] {
        after := state.(stored := Persisted(state.stored.value.(spec := call.spec, finalizers := call.finalizers)));
      } else if call.OutsiderSet?
                && (call.bucket.byOperator <==> call.name in state.buckets && state.buckets[call.name].byOperator) {
        after := state.(buckets := state.buckets[call.name := call.bucket], calm := false);
      } else if call.OutsiderRemove? {
        after := state.(buckets := state.buckets - {call.name}, calm := false);
      } else {
        return;
      }
      ghost var e := Event(call, Ack, state, after);
      RunMore(cfg, opening.pre, trace, state, e);
      state := after;
      trace := trace + [e];
    }

    /** Any number of such things. */
    method Drift(ghost cfg: Config)
      requires Valid(cfg)
      modifies `state, `trace
      ensures Valid(cfg) && |old(trace)| <= |trace| && Drifted(old(state), state)
    {
      var n: int := *;
      var i := 0;
      while i < n
        invariant Valid(cfg) && |old(trace)| <= |trace| && Drifted(old(state), state)
      {
        Disturb(cfg);
        i := i + 1;
      }
    }

    /** One S3 request. */
    method Send(ghost cfg: Config, req: Request) returns (reply: Reply)
      requires Valid(cfg) && Permitted(cfg, state, req)
      modifies `state, `trace
      ensures Valid(cfg) && |old(trace)| < |trace|
      ensures Sent(req, reply, old(state), state, LastEvent())
    {
      ghost var before := state;
      Drift(cfg);
      DriftKeepsPermission(cfg, before, state, req);
      var code: ErrorCode := *;
      reply := Answer(state.buckets, req);
      if SaysNotImplemented(state.buckets, req) {
        if * { reply := Failure(NotImplemented); }
      }
      var buckets := Served(state.buckets, req);
      if MayFailWith(req, code) {
        if * {
          reply := Failure(code);
          if * { buckets := state.buckets; }
        }
      }
      ghost var met := state;
      state := state.(buckets := buckets, last := Some(Exchange(req, reply)), sent := SentWith(state.sent, req));
      ghost var e := Event(Protocol.Api(req), reply, met, state);
      RunMore(cfg, opening.pre, trace, met, e);
      trace := trace + [e];
    }

    /** A request that reads one feature of the managed bucket; `seen` is the bucket that was there. */
    method Inspect(ghost cfg: Config, ghost o: Object, bucket: string, feature: Feature)
      returns (reply: Reply, ghost seen: Bucket)
      requires Valid(cfg) && Managing(cfg, state, o) && bucket == o.spec.bucket
      modifies `state, `trace
      ensures Valid(cfg) && |old(trace)| < |trace| && Kept(old(state), state)
      ensures Managing(cfg, state, o) && (state.calm ==> seen == state.buckets[bucket])
      ensures state.last == Some(Exchange(Request.Inspect(bucket, feature), reply))
      ensures var e := LastEvent();
              && e.call == Protocol.Api(Request.Inspect(bucket, feature)) && e.reply == reply
              && (|| reply == InspectReply(seen, feature)
                  || (feature == WebsiteHosting && seen.website.None? && reply == Failure(NotImplemented))
                  || (reply.Failure? && MayFailWith(e.call.req, reply.code) && (state.calm ==> Faulted(e))))
    {
      reply := Send(cfg, Request.Inspect(bucket, feature));
      ghost var e := LastEvent();
      seen := if bucket in e.pre.buckets then e.pre.buckets[bucket] else NewBucket("", "");
    }

    /** A request that sets or clears one feature of the managed bucket. */
    method Configure(ghost cfg: Config, ghost o: Object, bucket: string, change: Change) returns (reply: Reply)
      requires Valid(cfg) && Managing(cfg, state, o) && bucket == o.spec.bucket
      requires AsSpecified(cfg, o, change) && (state.calm ==> Needed(cfg, o, state.buckets[bucket], change))
      modifies `state, `trace
      ensures Valid(cfg) && |old(trace)| < |trace| && (reply.Ack? || reply.Failure?)
      ensures state.copy == Some(o) && state.last == Some(Exchange(Request.Configure(bucket, change), reply))
      ensures state.sent == old(state).sent + {change.Feature()}
      ensures state.calm ==>
                && old(state).calm && Touches(change.Feature(), bucket, old(state).buckets, state.buckets)
                && (reply.Ack? ==> state.buckets[bucket] == ApplyChange(old(state).buckets[bucket], change))
      ensures var e := LastEvent();
              && e.call == Protocol.Api(Request.Configure(bucket, change)) && e.reply == reply
              && (reply.Failure? && state.calm ==> Faulted(e))
    {
      ghost var before := state;
      reply := Send(cfg, Request.Configure(bucket, change));
      if state.calm { ServedTouches(bucket, change, before.buckets, state.buckets); }
    }

    /** `client.Update`, version-checked.  On success the instance takes over the stored version. */
    method Update(ghost cfg: Config, instance: Instance) returns (ok: bool)
      requires Valid(cfg) && UpdateAllowed(cfg, state, instance.obj)
      modifies `state, `trace, instance
      ensures Valid(cfg) && |old(trace)| < |trace| && state.last.None? && state.sent == old(state).sent
      ensures state.calm ==> old(state).calm && state.buckets == old(state).buckets
      ensures ok ==>
                && state.stored == state.copy == Persisted(old(instance.obj))
                && instance.obj == state.copy.GetOr(old(instance.obj))
      ensures !ok ==> state.copy.None?
      ensures var e := LastEvent();
              && e.call == Protocol.Update(old(instance.obj)) && (if ok then e.reply.Ack? else e.reply.Failure?)
              && e.pre.last == old(state).last
    {
      ghost var before, obj := state, instance.obj;
      Drift(cfg);
      DriftKeepsUpdate(cfg, before, state, obj);
      ghost var met := state;
      ok := false;
      var stored := state.stored;
      if state.stored.Some? && state.stored.value.version == instance.obj.version {
        if * {
          stored := Persisted(instance.obj);
          ok := *;
        }
      }
      state := state.(stored := stored, copy := if ok then stored else None, last := None);
      ghost var e := Event(Protocol.Update(obj), if ok then Ack else Failure(OtherError), met, state);
      RunMore(cfg, opening.pre, trace, met, e);
      trace := trace + [e];
      if ok && stored.Some? {
        instance.obj := stored.value;
      }
    }
  }
}
