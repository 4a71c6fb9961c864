/** Passes that show what can go wrong, call by call as the reconciler makes them. */
module Witnesses {
  import opened Wrappers
  import opened Names
  import opened Finalizers
  import opened Tags
  import opened Api
  import opened Protocol
  import opened Contracts
  import opened Runs
  import opened Convergence

  // ---------------------------------------------------------------- sample objects and calls

  function SampleSpec(acl: string): Spec {
    Spec("abc", "eu", acl, "", map[], DeleteStrategy.Delete, NotGiven, None, None, None, None, None)
  }

  lemma SampleIsValid(cfg: Config, acl: string, version: nat, status: Status)
    requires status.arn == "" || status == Status(BucketArn(cfg.partition, "abc"), "eu", status.acl)
    requires status.location == "" || status.location == "eu"
    ensures Live(cfg, Object(version, [FINALIZER], false, SampleSpec(acl), status))
  {
    assert LeadingDigits("abc") == 0;
    assert ValidBucketName("abc", "eu");
  }

  const FRESH := Object(0, [FINALIZER], false, SampleSpec(""), Status("", "", ""))
  const DYING := FRESH.(version := 1, deleting := true)

  function StatusWith(cfg: Config, acl: string): Status { Status(BucketArn(cfg.partition, "abc"), "eu", acl) }

  function Single(acl: string): Buckets { map["abc" := NewBucket(acl, "eu")] }

  /** A Get that finds the object. */
  function Got(s: State): Event {
    Event(Call.Get, Ack, s, s.(copy := s.stored, last := None, calm := true, sent := {}))
  }

  /** A request answered truthfully. */
  function Answered(s: State, req: Request): Event {
    var reply := Answer(s.buckets, req);
    Event(Protocol.Api(req), reply, s,
          s.(buckets := Served(s.buckets, req), last := Some(Exchange(req, reply)), sent := SentWith(s.sent, req)))
  }

  /** An update that fails without effect. */
  function Lost(s: State, obj: Object): Event {
    Event(Protocol.Update(obj), Failure(OtherError), s, s.(copy := None, last := None))
  }

  lemma GotSteps(cfg: Config, s: State)
    ensures Step(cfg, Got(s))
  {
  }

  lemma AnsweredSteps(cfg: Config, s: State, req: Request)
    requires Permitted(cfg, s, req)
    ensures Step(cfg, Answered(s, req))
  {
  }

  lemma ReadSteps(cfg: Config, s: State, req: Request)
    requires req.ReadOnly() && !Owes(s) && s.copy.Some? && Live(cfg, s.copy.value)
    requires req.bucket == s.copy.value.spec.bucket
    ensures Step(cfg, Answered(s, req))
  {
    AnsweredSteps(cfg, s, req);
  }

  lemma Chain(cfg: Config, es: seq<Event>)
    requires es != [] && (forall i | 0 <= i < |es| :: Step(cfg, es[i]))
    requires forall i, j | 0 <= i && j == i + 1 && j < |es| :: es[i].post == es[j].pre
    ensures Run(cfg, es[0].pre, es, es[|es| - 1].post)
  {
  }

  // ---------------------------------------------------------------- a bucket that leaks

  const NOTHING := State(Some(FRESH), map[], None, None, false, {})

  /** Head, create, and a status update that fails. */
  function CreatingPass(cfg: Config): Pass {
    var e0 := Got(NOTHING);
    var e1 := Answered(e0.post, Head("abc"));
    var e2 := Answered(e1.post, Create("abc", "private", "eu"));
    var e3 := Lost(e2.post, FRESH.(status := StatusWith(cfg, "private")));
    Pass(NOTHING, [e0, e1, e2, e3], e3.post, Failed(false))
  }

  lemma CreatingSteps(cfg: Config)
    ensures forall i | 0 <= i < 4 :: Step(cfg, CreatingPass(cfg).events[i])
  {
    SampleIsValid(cfg, "", 0, FRESH.status);
    var es := CreatingPass(cfg).events;
    GotSteps(cfg, NOTHING);
    ReadSteps(cfg, es[1].pre, Head("abc"));
    AnsweredSteps(cfg, es[2].pre, Create("abc", "private", "eu"));
    assert Step(cfg, es[3]);
  }

  lemma CreatingRuns(cfg: Config)
    ensures var p := CreatingPass(cfg); Run(cfg, p.before, p.events, p.after)
  {
    CreatingSteps(cfg);
    Chain(cfg, CreatingPass(cfg).events);
  }

  /** Every bucket that was there is untouched, and the failed update is to blame. */
  lemma CreatingFails(cfg: Config, e: Event, t: State)
    requires e.call.Update? && e.reply.Failure? && e.pre.last.Some? && e.pre.last.value.req.Create?
    requires t.buckets == Single("private")
    ensures Excused(cfg, FRESH, map[], t, e, RetryError(false))
  {
    assert Untouched("abc", map[], Single("private"));
  }

  lemma CreatingPassSpec(cfg: Config)
    ensures PassSpec(cfg, CreatingPass(cfg))
  {
    var p := CreatingPass(cfg);
    CreatingRuns(cfg);
    assert p.after.buckets == Single("private");
    CreatingFails(cfg, p.events[3], p.after);
  }

  /** A pass that lets an object go whose ARN was never recorded. */
  function LettingGoPass(s: State): Pass {
    var e0 := Got(s);
    var e1 := Event(Protocol.Update(DYING.(finalizers := [])), Ack, e0.post,
                    e0.post.(stored := None, copy := None, last := None));
    Pass(s, [e0, e1], e1.post, Done)
  }

  lemma LettingGoPassSpec(cfg: Config, s: State)
    requires s.stored == Some(DYING)
    ensures PassSpec(cfg, LettingGoPass(s))
  {
    var p := LettingGoPass(s);
    assert Without([FINALIZER], FINALIZER) == [];
    assert Step(cfg, p.events[0]) && Step(cfg, p.events[1]);
    Chain(cfg, p.events);
  }

  predicate Releasing(turn: Turn) {
    turn.Whole? ==> forall i | 0 <= i < |turn.pass.events| :: NotSkipped(turn.pass.events[i])
  }

  /** The object is gone and a bucket that the operator created is left. */
  predicate Leaked(u: State) { u.stored.None? && exists b :: b in u.buckets && u.buckets[b].byOperator }

  /** If the update after a create fails, a bucket can outlive its object, though the strategy is Delete. */
  lemma LeakWitness(cfg: Config)
    ensures exists states, turns ::
              && History(cfg, states, turns) && Tidy(cfg, states[0]) && (forall turn | turn in turns :: Releasing(turn))
              && Leaked(states[|turns|])
  {
    var p := CreatingPass(cfg);
    var s := p.after.(stored := Some(DYING));
    var q := LettingGoPass(s);
    var deleted := Event(UserDelete, Ack, p.after, s);
    var states, turns := [p.before, p.after, s, q.after], [Whole(p), Elsewhere(deleted), Whole(q)];
    CreatingPassSpec(cfg);
    LettingGoPassSpec(cfg, s);
    assert Taken(cfg, states[0], turns[0], states[1]);
    assert Taken(cfg, states[1], turns[1], states[2]);
    assert Taken(cfg, states[2], turns[2], states[3]);
    assert History(cfg, states, turns);
    assert states[|turns|].buckets["abc"].byOperator;
  }

  // ---------------------------------------------------------------- a create under deletion

  /** Deletion is asked for between the head request and the create. */
  function InFlightPass(cfg: Config): Pass {
    var e0 := Got(NOTHING);
    var e1 := Answered(e0.post, Head("abc"));
    var e2 := Event(UserDelete, Ack, e1.post, e1.post.(stored := Some(DYING)));
    var e3 := Answered(e2.post, Create("abc", "private", "eu"));
    var e4 := Lost(e3.post, FRESH.(status := StatusWith(cfg, "private")));
    Pass(NOTHING, [e0, e1, e2, e3, e4], e4.post, Failed(false))
  }

  lemma InFlightSteps(cfg: Config)
    ensures forall i | 0 <= i < 5 :: Step(cfg, InFlightPass(cfg).events[i])
  {
    SampleIsValid(cfg, "", 0, FRESH.status);
    var es := InFlightPass(cfg).events;
    GotSteps(cfg, NOTHING);
    ReadSteps(cfg, es[1].pre, Head("abc"));
    assert Step(cfg, es[2]);
    assert Step(cfg, es[3]) && Step(cfg, es[4]) by { InFlightEnd(cfg); }
  }

  lemma InFlightEnd(cfg: Config)
    ensures Step(cfg, InFlightPass(cfg).events[3]) && Step(cfg, InFlightPass(cfg).events[4])
  {
    SampleIsValid(cfg, "", 0, FRESH.status);
  }

  predicate CreatesUnderDeletion(e: Event) {
    e.call.Api? && e.call.req.Create? && e.reply.Ack? && e.pre.stored.Some? && e.pre.stored.value.deleting
  }

  lemma InFlightRuns(cfg: Config)
    ensures var p := InFlightPass(cfg); Run(cfg, p.before, p.events, p.after)
  {
    InFlightSteps(cfg);
    Chain(cfg, InFlightPass(cfg).events);
  }

  lemma InFlightPassSpec(cfg: Config)
    ensures PassSpec(cfg, InFlightPass(cfg))
  {
    var p := InFlightPass(cfg);
    InFlightRuns(cfg);
    assert p.after.buckets == Single("private");
    CreatingFails(cfg, p.events[4], p.after);
  }

  /** A pass in flight when deletion is asked for may still create the bucket. */
  lemma InFlightWitness(cfg: Config)
    ensures exists p :: PassSpec(cfg, p) && exists e :: e in p.events && CreatesUnderDeletion(e)
  {
    var p := InFlightPass(cfg);
    InFlightPassSpec(cfg);
    assert p.events[3] in p.events && CreatesUnderDeletion(p.events[3]);
  }

  // ---------------------------------------------------------------- an ACL that stays wrong

  function Public(cfg: Config): Object {
    Object(0, [FINALIZER], false, SampleSpec("public-read"), StatusWith(cfg, "private"))
  }

  function Private(cfg: Config): Object { Public(cfg).(version := 1, spec := SampleSpec("private")) }

  function Before(cfg: Config): State { State(Some(Public(cfg)), Single("private"), None, None, false, {}) }

  /** Head, the tag and the policy stage with nothing to do, an ACL change, and a status update that fails. */
  function AclPass(cfg: Config): Pass {
    var e0 := Got(Before(cfg));
    var e1 := Answered(e0.post, Head("abc"));
    var e2 := Answered(e1.post, Request.Inspect("abc", Tagging));
    var e3 := Answered(e2.post, Request.Inspect("abc", Policy));
    var e4 := Answered(e3.post, Request.Configure("abc", PutAcl("public-read")));
    var e5 := Lost(e4.post, Public(cfg).(status := StatusWith(cfg, "public-read")));
    Pass(Before(cfg), [e0, e1, e2, e3, e4, e5], e5.post, Failed(false))
  }

  lemma AclReads(cfg: Config)
    ensures Step(cfg, AclPass(cfg).events[0]) && Step(cfg, AclPass(cfg).events[1])
  {
    SampleIsValid(cfg, "public-read", 0, StatusWith(cfg, "private"));
    GotSteps(cfg, Before(cfg));
    ReadSteps(cfg, AclPass(cfg).events[1].pre, Head("abc"));
  }

  lemma AclStagesRead(cfg: Config)
    ensures Step(cfg, AclPass(cfg).events[2]) && Step(cfg, AclPass(cfg).events[3])
  {
    SampleIsValid(cfg, "public-read", 0, StatusWith(cfg, "private"));
    var es := AclPass(cfg).events;
    ReadSteps(cfg, es[2].pre, Request.Inspect("abc", Tagging));
    ReadSteps(cfg, es[3].pre, Request.Inspect("abc", Policy));
  }

  lemma AclWrites(cfg: Config)
    ensures Step(cfg, AclPass(cfg).events[4]) && Step(cfg, AclPass(cfg).events[5])
  {
    SampleIsValid(cfg, "public-read", 0, StatusWith(cfg, "private"));
    var es := AclPass(cfg).events;
    assert Step(cfg, es[4]);
    assert Step(cfg, es[5]);
  }

  lemma AclStageStopped(cfg: Config)
    ensures StoppedAt(cfg, Acl, SampleSpec("public-read"), "private", Single("private"), Single("public-read"))
  {
    var spec, a, b := SampleSpec("public-read"), NewBucket("private", "eu"), NewBucket("public-read", "eu");
    assert Single("public-read") == Single("private")["abc" := b];
    assert Visible(spec.tags) == map[];
    forall j | 0 <= j < 2 ensures StageShows(cfg, ORDER[j], spec, "private", a, b) {
      assert j == 0 || j == 1;
    }
  }

  lemma AllOfSix(cfg: Config, es: seq<Event>)
    requires |es| == 6 && Step(cfg, es[0]) && Step(cfg, es[1]) && Step(cfg, es[2])
    requires Step(cfg, es[3]) && Step(cfg, es[4]) && Step(cfg, es[5])
    ensures forall i | 0 <= i < |es| :: Step(cfg, es[i])
  {
  }

  lemma AclPassRuns(cfg: Config)
    ensures var p := AclPass(cfg); Run(cfg, p.before, p.events, p.after)
  {
    AclReads(cfg);
    AclStagesRead(cfg);
    AclWrites(cfg);
    AllOfSix(cfg, AclPass(cfg).events);
    Chain(cfg, AclPass(cfg).events);
  }

  lemma AclPassSpec(cfg: Config)
    ensures PassSpec(cfg, AclPass(cfg))
  {
    AclPassRuns(cfg);
    AclPassFails(cfg);
  }

  lemma AclPassFails(cfg: Config)
    ensures var p := AclPass(cfg);
            Excused(cfg, Public(cfg), p.before.buckets, p.after, p.events[5], RetryError(false))
  {
    AclStageStopped(cfg);
    assert AclPass(cfg).after.buckets == Single("public-read");
  }

  /** Whatever the operator does by itself, the ACL stays wrong. */
  ghost predicate WrongForGood(cfg: Config, t: State) {
    && AclWrong(cfg, t) && Live(cfg, t.stored.value)
    && forall es, u :: Run(cfg, t, es, u) && Undisturbed(es) ==> AclWrong(cfg, u)
  }

  /**
    If the update after an ACL change fails and the spec then returns to the old ACL, the bucket
    keeps the wrong one, whatever passes the operator makes from then on.
   */
  lemma AclDriftWitness(cfg: Config)
    ensures exists states, turns ::
              && History(cfg, states, turns) && Coherent(states[0]) && Mirrors(cfg, states[0])
              && WrongForGood(cfg, states[|turns|])
  {
    var p := AclPass(cfg);
    var t := p.after.(stored := Some(Private(cfg)));
    var edited := Event(UserEdit(SampleSpec("private"), [FINALIZER]), Ack, p.after, t);
    var states, turns := [p.before, p.after, t], [Whole(p), Elsewhere(edited)];
    AclPassSpec(cfg);
    SampleIsValid(cfg, "private", 1, StatusWith(cfg, "private"));
    assert Taken(cfg, states[0], turns[0], states[1]);
    assert Taken(cfg, states[1], turns[1], states[2]);
    assert History(cfg, states, turns);
    assert Mirrors(cfg, states[0]) by { assert forall b | b in states[0].buckets :: b == "abc"; }
    forall es, u | Run(cfg, t, es, u) && Undisturbed(es) ensures AclWrong(cfg, u) {
      AclStaysWrong(cfg, t, es, u);
    }
  }
}
