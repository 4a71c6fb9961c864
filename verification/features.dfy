/**
  The eight features of a bucket: how the operator reads each one back from S3, what the spec
  asks for, and what it writes.  Reading after writing is stated here feature by feature.
 */
module Features {
  import opened Wrappers
  import opened JsonLexer
  import opened Json
  import opened NormalizeJson
  import opened Tags
  import opened RoutingRules
  import opened Api

  // ---------------------------------------------------------------- reading

  function ReadPolicy(fc: Strconv, policy: Option<string>): string {
    match policy
    case None => ""
    case Some(text) => Normalize(fc, text).text
  }

  /** The first rule that names an algorithm. */
  function ReadSse(rules: seq<WireSse>): Option<Sse> {
    if rules == [] then None
    else
      match rules[0].byDefault
      case Some(SseDefault(Some(algorithm), key)) => Some(Sse(algorithm, key.GetOr("")))
      case _ => ReadSse(rules[1..])
  }

  function ReadLogging(l: Option<WireLogging>): Option<Logging> {
    match l
    case Some(WireLogging(Some(target), prefix)) => Some(Logging(target, prefix.GetOr("")))
    case _ => None
  }

  function ReadWebsite(fc: Strconv, w: Option<WireWebsite>): Option<Website> {
    match w
    case Some(WireWebsite(Some(index), error, rules, _)) =>
      Some(Website(Some(Endpoint(index, error.GetOr(""), if rules == [] then "" else RulesText(fc, rules))), None))
    case Some(WireWebsite(None, _, _, Some(WireRedirect(Some(host), protocol)))) =>
      Some(Website(None, Some(Redirect(host, protocol.GetOr("")))))
    case _ => None
  }

  function ReadCorsRule(w: WireCors): CorsRule {
    CorsRule(Slice(w.headers), Slice(w.methods), Slice(w.origins), Slice(w.expose), w.maxAge)
  }

  function ReadCorsRules(ws: seq<WireCors>): seq<CorsRule> {
    seq(|ws|, i requires 0 <= i < |ws| => ReadCorsRule(ws[i]))
  }

  function ReadCors(ws: seq<WireCors>): Option<seq<CorsRule>> { if ws == [] then None else Some(ReadCorsRules(ws)) }

  // ---------------------------------------------------------------- writing

  function WriteSse(d: Sse): seq<WireSse> {
    [WireSse(Some(SseDefault(Some(d.algorithm), if d.kmsKey != "" then Some(d.kmsKey) else None)))]
  }

  function WriteLogging(d: Option<Logging>): Option<WireLogging> {
    match d
    case None => None
    case Some(l) => Some(WireLogging(Some(l.targetBucket), Some(l.targetPrefix)))
  }

  function NonEmpty(s: string): Option<string> { if s == "" then None else Some(s) }

  /** What `updateBucketWebsite` sends for a website; None when the routing rules do not decode. */
  function WriteWebsite(fc: Strconv, d: Website): Option<WireWebsite> {
    var rules := if d.endpoint.None? then Some([]) else RulesOf(fc, d.endpoint.value.routingRules);
    if rules.None? then None
    else
      Some(WireWebsite(
             if d.endpoint.None? then None else NonEmpty(d.endpoint.value.indexDocument),
             if d.endpoint.None? then None else NonEmpty(d.endpoint.value.errorDocument),
             rules.value,
             if d.redirect.None? || d.redirect.value.hostName == "" then None
             else Some(WireRedirect(Some(d.redirect.value.hostName), NonEmpty(d.redirect.value.protocol)))))
  }

  function WriteCorsRule(r: CorsRule): WireCors {
    WireCors(r.allowedHeaders.Items(), r.allowedMethods.Items(), r.allowedOrigins.Items(),
             r.exposeHeaders.Items(), r.maxAgeSeconds)
  }

  function WriteCors(rs: seq<CorsRule>): seq<WireCors> { seq(|rs|, i requires 0 <= i < |rs| => WriteCorsRule(rs[i])) }

  function WriteVersioning(enabled: bool): Versioning { if enabled then Enabled else Suspended }

  // ---------------------------------------------------------------- what the spec asks for

  function NormalEndpoint(fc: Strconv, e: Endpoint): Endpoint {
    e.(routingRules := Normalize(fc, e.routingRules).text)
  }

  function NormalWebsite(fc: Strconv, w: Website): Website {
    if w.endpoint.None? then w else w.(endpoint := Some(NormalEndpoint(fc, w.endpoint.value)))
  }

  function DesiredPolicy(fc: Strconv, spec: Spec): string { Normalize(fc, spec.policy).text }

  function DesiredAcl(spec: Spec): string { if spec.acl != "" then spec.acl else "private" }

  function DesiredVersioning(spec: Spec): bool { spec.versioning.GetOr(false) }

  function DesiredWebsite(fc: Strconv, spec: Spec): Option<Website> {
    if spec.website.None? then None else Some(NormalWebsite(fc, spec.website.value))
  }

  /** The bucket shows, in one feature, what the spec asks for. */
  predicate Agrees(fc: Strconv, f: Feature, spec: Spec, b: Bucket) {
    match f
    case Tagging => ToMap(b.tagSet) == Visible(spec.tags)
    case Policy => ReadPolicy(fc, b.policy) == DesiredPolicy(fc, spec)
    case Acl => b.acl == DesiredAcl(spec)
    case Encryption => ReadSse(b.sse) == spec.sse
    case VersioningState => (b.versioning == Enabled) == DesiredVersioning(spec)
    case LoggingTarget => ReadLogging(b.logging) == spec.logging
    case WebsiteHosting => ReadWebsite(fc, b.website) == DesiredWebsite(fc, spec)
    case Cors => if spec.cors.None? then b.cors == [] else b.cors == WriteCors(spec.cors.value)
  }

  /** The features of a bucket that differ from the spec. */
  function Differs(fc: Strconv, b: Bucket, spec: Spec): set<Feature> {
    set f: Feature | !Agrees(fc, f, spec, b)
  }

  // ---------------------------------------------------------------- conditions on a spec

  /** The routing rules have a normal form. */
  predicate Normalizes(fc: Strconv, d: Website) {
    d.endpoint.Some? ==> !Normalize(fc, d.endpoint.value.routingRules).failed
  }

  /**
    What the website stage writes: the desired website as it is when none can be read (`present` is
    false), else with its routing rules in normal form.  None is an error.
   */
  function SiteFor(fc: Strconv, d: Website, present: bool): Option<WireWebsite> {
    if !present then WriteWebsite(fc, d)
    else if Normalizes(fc, d) then WriteWebsite(fc, NormalWebsite(fc, d))
    else None
  }

  /** The operator reads a website from the bucket. */
  predicate WebsitePresent(fc: Strconv, b: Bucket) { ReadWebsite(fc, b.website).Some? }

  /** The JSON that the spec gives for a feature can be used: the policy parses, the routing rules decode. */
  predicate UsablePart(fc: Strconv, f: Feature, spec: Spec, present: bool) {
    match f
    case Policy => spec.policy == "" || Denotes(fc, spec.policy)
    case WebsiteHosting => spec.website.Some? ==> SiteFor(fc, spec.website.value, present).Some?
    case _ => true
  }

  predicate Usable(fc: Strconv, spec: Spec, present: bool) {
    UsablePart(fc, Policy, spec, present) && UsablePart(fc, WebsiteHosting, spec, present)
  }

  /**
    A website can be read back as it is written: an index document with canonical rules, in which,
    if they are written as given, repeated parts lose nothing; or a host name.
   */
  predicate ReadableWebsite(fc: Strconv, w: Website, present: bool) {
    if w.endpoint.Some? then
      var text := w.endpoint.value.routingRules;
      && w.endpoint.value.indexDocument != ""
      && (text == "" ||
          (&& Denotes(fc, text) && CanonicalRules(Parse(fc, text).value)
           && (present || Covered(ParseDoc(fc, text).value))))
    else
      w.redirect.Some? && w.redirect.value.hostName != ""
  }

  /** One of endpoint and redirect is given, as validation demands. */
  predicate OneSided(w: Website) { w.endpoint.Some? != w.redirect.Some? }

  predicate Readable(fc: Strconv, spec: Spec, present: bool) {
    spec.website.Some? ==> ReadableWebsite(fc, spec.website.value, present)
  }

  // ---------------------------------------------------------------- reading after writing

  lemma SseRoundTrip(d: Sse)
    ensures ReadSse(WriteSse(d)) == Some(d)
  {
  }

  /** Rules without an algorithm are passed over, and nothing after the first usable rule counts. */
  lemma {:induction false} SseFirstUsable(skipped: seq<WireSse>, d: Sse, later: seq<WireSse>)
    requires forall r | r in skipped :: r.byDefault.None? || r.byDefault.value.algorithm.None?
    ensures ReadSse(skipped + WriteSse(d) + later) == Some(d)
  {
    var all := skipped + WriteSse(d) + later;
    if skipped == [] {
      assert all[0] == WriteSse(d)[0];
    } else {
      assert all[0] == skipped[0] && skipped[0] in skipped;
      assert all[1..] == skipped[1..] + WriteSse(d) + later;
      SseFirstUsable(skipped[1..], d, later);
    }
  }

  lemma LoggingRoundTrip(d: Option<Logging>)
    ensures ReadLogging(WriteLogging(d)) == d
  {
  }

  /** `cmp.Equal` with `EquateEmpty`: nil and empty slices count as equal. */
  predicate SameRule(a: CorsRule, b: CorsRule) {
    && a.allowedHeaders.Items() == b.allowedHeaders.Items() && a.allowedMethods.Items() == b.allowedMethods.Items()
    && a.allowedOrigins.Items() == b.allowedOrigins.Items() && a.exposeHeaders.Items() == b.exposeHeaders.Items()
    && a.maxAgeSeconds == b.maxAgeSeconds
  }

  predicate SameRules(a: seq<CorsRule>, b: seq<CorsRule>) {
    |a| == |b| && forall i | 0 <= i < |a| :: SameRule(a[i], b[i])
  }

  /** Reading written rules gives the same rules up to nil versus empty, and only those rules. */
  lemma CorsRoundTrip(ws: seq<WireCors>, d: seq<CorsRule>)
    ensures SameRules(ReadCorsRules(ws), d) <==> ws == WriteCors(d)
  {
    if SameRules(ReadCorsRules(ws), d) {
      forall i | 0 <= i < |ws| ensures ws[i] == WriteCorsRule(d[i]) {
        assert SameRule(ReadCorsRules(ws)[i], d[i]);
      }
    }
  }

  /** Plain equality would not do: a nil list comes back empty. */
  lemma CorsNeedsEquateEmpty()
    ensures exists d: CorsRule :: ReadCorsRule(WriteCorsRule(d)) != d
  {
    var d := CorsRule(NilSlice, NilSlice, NilSlice, NilSlice, None);
    assert ReadCorsRule(WriteCorsRule(d)) != d;
  }

  /** A website written as given is read back, rules in normal form, exactly when it is readable. */
  lemma GivenReadBack(fc: Strconv, d: Website)
    requires OneSided(d) && WriteWebsite(fc, d).Some?
    ensures ReadWebsite(fc, WriteWebsite(fc, d)) == Some(NormalWebsite(fc, d)) <==> ReadableWebsite(fc, d, false)
  {
    if d.endpoint.Some? {
      var text := d.endpoint.value.routingRules;
      if text != "" {
        RulesReadBack(fc, text);
        EmptyDenotesNothing(fc);
        NormalFormDenotes(fc, text);
      }
    }
  }

  /**
    What the stage writes is read back as desired, rules in normal form, exactly when the website
    has an index document and canonical rules, in which repeated parts lose nothing if they are
    written as given, or redirects to a named host.
   */
  lemma WebsiteReadBack(fc: Strconv, d: Website, present: bool)
    requires OneSided(d) && SiteFor(fc, d, present).Some?
    ensures ReadWebsite(fc, SiteFor(fc, d, present)) == Some(NormalWebsite(fc, d)) <==> ReadableWebsite(fc, d, present)
  {
    if !present {
      GivenReadBack(fc, d);
    } else {
      var n := NormalWebsite(fc, d);
      GivenReadBack(fc, n);
      if d.endpoint.Some? {
        var text := d.endpoint.value.routingRules;
        NormalizeIdempotent(fc, text);
        if text != "" {
          NormalFormDenotes(fc, text);
          NormalFormCovered(fc, text);
        }
      }
    }
  }

  /** What can be written as given can be written in normal form, and what is readable as given is so then. */
  lemma NormalFormWorksToo(fc: Strconv, spec: Spec)
    ensures Usable(fc, spec, false) ==> Usable(fc, spec, true)
    ensures Readable(fc, spec, false) ==> Readable(fc, spec, true)
  {
    if spec.website.Some? && spec.website.value.endpoint.Some? && Usable(fc, spec, false) {
      var text := spec.website.value.endpoint.value.routingRules;
      if text != "" { NormalFormSameRules(fc, text); }
    }
  }

  /** Routing rules read from S3 are already in normal form. */
  lemma ReadWebsiteNormal(fc: Strconv, w: Option<WireWebsite>)
    ensures ReadWebsite(fc, w).Some? ==>
              && NormalWebsite(fc, ReadWebsite(fc, w).value) == ReadWebsite(fc, w).value
              && (var e := ReadWebsite(fc, w).value.endpoint;
                  e.Some? ==> !Normalize(fc, e.value.routingRules).failed)
  {
    if ReadWebsite(fc, w).Some? && ReadWebsite(fc, w).value.endpoint.Some? {
      var rs := w.value.rules;
      PrintUndone(fc, Arr(CleanRules(rs)));
    }
  }

  /** A website that is there already, rules in normal form, can be written again. */
  lemma WebsitePresentUsable(fc: Strconv, w: Option<WireWebsite>, d: Website)
    requires ReadWebsite(fc, w) == Some(NormalWebsite(fc, d)) && Normalizes(fc, d)
    ensures SiteFor(fc, d, true).Some?
  {
    if d.endpoint.Some? && d.endpoint.value.routingRules != "" && w.value.rules != [] {
      RulesTextDecodes(fc, w.value.rules);
    }
  }

  /** A trimmed policy is read back as the normal form of the policy. */
  lemma PolicyReadBack(fc: Strconv, policy: string)
    requires Denotes(fc, policy)
    ensures Trim(policy) != ""
    ensures ReadPolicy(fc, Some(Trim(policy))) == Normalize(fc, policy).text
  {
    TrimKeepsValue(fc, policy);
  }

  /** A policy of white space only is not a JSON text, so it never reaches the delete branch. */
  lemma BlankPolicyFails(fc: Strconv, policy: string)
    requires policy != "" && Trim(policy) == ""
    ensures Normalize(fc, policy).failed
  {
    if Denotes(fc, policy) {
      TrimKeepsValue(fc, policy);
    }
  }

  lemma {:induction false} SystemTagsOnly(ts: seq<Tag>)
    ensures ToMap(SystemTags(ts)) == map[]
  {
    ToMapIgnored(SystemTags(ts));
  }

  lemma TagsReadBack(b: Bucket, ts: seq<Tag>, m: TagMap)
    requires Lists(ts, Visible(m))
    ensures ToMap(ApplyChange(b, PutTags(ts)).tagSet) == Visible(m)
  {
    ToMapPrefix(SystemTags(b.tagSet), ts);
    TagsRoundTrip(ts, m);
  }
}
