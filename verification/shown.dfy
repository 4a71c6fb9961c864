/**
  What it means for a bucket to show a feature as the spec asks for it, said on the stored
  configuration itself and apart from the functions that read it.
 */
module ShownFeatures {
  import opened Wrappers
  import opened JsonLexer
  import opened Json
  import opened NormalizeJson
  import opened Tags
  import opened RoutingRules
  import opened Api
  import opened Features

  // ---------------------------------------------------------------- tags

  /** The last tag with key `k` has the value `v`. */
  predicate LastTag(ts: seq<Tag>, k: string, v: string) {
    exists i | 0 <= i < |ts| :: ts[i] == Tag(k, v) && forall j | i < j < |ts| :: ts[j].key != k
  }

  /** Apart from keys that start with `aws:`, the tags are those of the spec, the last one of a key counting. */
  predicate ShowsTags(spec: Spec, b: Bucket) {
    && (forall k | k in spec.tags && !("aws:" <= k) :: LastTag(b.tagSet, k, spec.tags[k]))
    && (forall t | t in b.tagSet && !("aws:" <= t.key) :: t.key in spec.tags)
  }

  lemma {:induction false} ToMapIsLast(ts: seq<Tag>, k: string)
    ensures k in ToMap(ts) <==> !("aws:" <= k) && exists t :: t in ts && t.key == k
    ensures k in ToMap(ts) ==> LastTag(ts, k, ToMap(ts)[k])
  {
    if ts != [] {
      var n := |ts| - 1;
      ToMapIsLast(ts[..n], k);
      assert ts == ts[..n] + [ts[n]];
      if k in ToMap(ts) && ts[n].key == k {
        assert ts[n] == Tag(k, ToMap(ts)[k]);
      } else if k in ToMap(ts) {
        var i :| 0 <= i < n && ts[..n][i] == Tag(k, ToMap(ts)[k]) && forall j | i < j < n :: ts[..n][j].key != k;
        assert ts[i] == Tag(k, ToMap(ts)[k]);
        forall j | i < j < |ts| ensures ts[j].key != k { if j < n { assert ts[..n][j] == ts[j]; } }
      }
    }
  }

  lemma LastTagUnique(ts: seq<Tag>, k: string, v: string, w: string)
    requires LastTag(ts, k, v) && LastTag(ts, k, w)
    ensures v == w
  {
  }

  lemma TagsShown(spec: Spec, b: Bucket)
    ensures ToMap(b.tagSet) == Visible(spec.tags) <==> ShowsTags(spec, b)
  {
    if ToMap(b.tagSet) == Visible(spec.tags) {
      forall k | k in spec.tags && !("aws:" <= k) ensures LastTag(b.tagSet, k, spec.tags[k]) {
        assert k in Visible(spec.tags);
        ToMapIsLast(b.tagSet, k);
      }
      forall t | t in b.tagSet && !("aws:" <= t.key) ensures t.key in spec.tags { ToMapIsLast(b.tagSet, t.key); }
    }
    if ShowsTags(spec, b) { ShownTagsRead(spec, b); }
  }

  lemma ShownTagsRead(spec: Spec, b: Bucket)
    requires ShowsTags(spec, b)
    ensures ToMap(b.tagSet) == Visible(spec.tags)
  {
    var m := ToMap(b.tagSet);
    forall k ensures k in m <==> k in Visible(spec.tags) {
      ToMapIsLast(b.tagSet, k);
      if k in Visible(spec.tags) {
        var i :| 0 <= i < |b.tagSet| && b.tagSet[i] == Tag(k, spec.tags[k]);
        assert b.tagSet[i] in b.tagSet;
      }
    }
    forall k | k in m ensures m[k] == spec.tags[k] {
      ToMapIsLast(b.tagSet, k);
      LastTagUnique(b.tagSet, k, m[k], spec.tags[k]);
    }
  }

  // ---------------------------------------------------------------- policy

  /** No policy; or one of the same value; or, if the spec's is not JSON, the very text. */
  predicate ShowsPolicy(fc: Strconv, spec: Spec, b: Bucket) {
    if spec.policy == "" then b.policy.None? || b.policy == Some("")
    else if Parse(fc, spec.policy).Some? then b.policy.Some? && Parse(fc, b.policy.value) == Parse(fc, spec.policy)
    else b.policy == Some(spec.policy)
  }

  lemma PolicyShown(fc: Strconv, spec: Spec, b: Bucket)
    ensures ReadPolicy(fc, b.policy) == DesiredPolicy(fc, spec) <==> ShowsPolicy(fc, spec, b)
  {
    EmptyDenotesNothing(fc);
    if Denotes(fc, spec.policy) { NormalFormDenotes(fc, spec.policy); }
    if b.policy.Some? && Denotes(fc, b.policy.value) {
      NormalFormDenotes(fc, b.policy.value);
      if Denotes(fc, spec.policy) { SameNormalForm(fc, b.policy.value, spec.policy); }
    }
  }

  // ---------------------------------------------------------------- encryption

  /** An optional text that is missing when it is empty. */
  predicate Holds(field: Option<string>, s: string) { field == Some(s) || (field.None? && s == "") }

  predicate NamesNothing(r: WireSse) { r.byDefault.None? || r.byDefault.value.algorithm.None? }

  predicate Names(r: WireSse, d: Sse) {
    r.byDefault.Some? && r.byDefault.value.algorithm == Some(d.algorithm) && Holds(r.byDefault.value.kmsKey, d.kmsKey)
  }

  /** The first rule that names an algorithm is this one. */
  predicate FirstNames(rules: seq<WireSse>, d: Sse) {
    exists i | 0 <= i < |rules| :: Names(rules[i], d) && forall j | 0 <= j < i :: NamesNothing(rules[j])
  }

  predicate ShowsEncryption(spec: Spec, b: Bucket) {
    match spec.sse
    case None => forall r | r in b.sse :: NamesNothing(r)
    case Some(d) => FirstNames(b.sse, d)
  }

  lemma FirstNamesLater(rules: seq<WireSse>, d: Sse)
    requires rules != [] && NamesNothing(rules[0])
    ensures FirstNames(rules, d) <==> FirstNames(rules[1..], d)
  {
    var rest := rules[1..];
    if FirstNames(rules, d) {
      var i :| 0 <= i < |rules| && Names(rules[i], d) && forall j | 0 <= j < i :: NamesNothing(rules[j]);
      assert Names(rest[i - 1], d);
      forall j | 0 <= j < i - 1 ensures NamesNothing(rest[j]) { assert rest[j] == rules[j + 1]; }
    }
    if FirstNames(rest, d) {
      var i :| 0 <= i < |rest| && Names(rest[i], d) && forall j | 0 <= j < i :: NamesNothing(rest[j]);
      assert Names(rules[i + 1], d);
      forall j | 0 <= j < i + 1 ensures NamesNothing(rules[j]) { if j > 0 { assert rules[j] == rest[j - 1]; } }
    }
  }

  lemma {:induction false} SomeFirst(rules: seq<WireSse>, d: Sse)
    ensures ReadSse(rules) == Some(d) <==> FirstNames(rules, d)
  {
    if rules != [] {
      if NamesNothing(rules[0]) {
        FirstNamesLater(rules, d);
        SomeFirst(rules[1..], d);
      } else if ReadSse(rules) == Some(d) {
        assert Names(rules[0], d);
      }
    }
  }

  lemma {:induction false} NoneFirst(rules: seq<WireSse>)
    ensures ReadSse(rules).None? <==> forall r | r in rules :: NamesNothing(r)
  {
    if rules != [] {
      NoneFirst(rules[1..]);
      if NamesNothing(rules[0]) {
        forall r | r in rules ensures r == rules[0] || r in rules[1..] { assert rules == [rules[0]] + rules[1..]; }
        forall r | r in rules[1..] ensures r in rules {}
      } else {
        assert rules[0] in rules;
      }
    }
  }

  lemma EncryptionShown(spec: Spec, b: Bucket)
    ensures ReadSse(b.sse) == spec.sse <==> ShowsEncryption(spec, b)
  {
    if spec.sse.None? { NoneFirst(b.sse); } else { SomeFirst(b.sse, spec.sse.value); }
  }

  // ---------------------------------------------------------------- logging, website, CORS

  predicate ShowsLogging(spec: Spec, b: Bucket) {
    match spec.logging
    case None => b.logging.None? || b.logging.value.targetBucket.None?
    case Some(l) =>
      && b.logging.Some? && b.logging.value.targetBucket == Some(l.targetBucket)
      && Holds(b.logging.value.targetPrefix, l.targetPrefix)
  }

  /** The stored rules, unset fields left out, are the value that the text denotes. */
  predicate ShowsRules(fc: Strconv, text: string, rules: seq<RoutingRule>) {
    if rules == [] then text == "" else Parse(fc, text) == Some(Arr(CleanRules(rules)))
  }

  predicate ShowsWebsite(fc: Strconv, spec: Spec, b: Bucket) {
    match spec.website
    case None =>
      b.website.None? || (b.website.value.index.None?
                          && (b.website.value.redirect.None? || b.website.value.redirect.value.hostName.None?))
    case Some(Website(Some(e), None)) =>
      && b.website.Some? && b.website.value.index == Some(e.indexDocument)
      && Holds(b.website.value.error, e.errorDocument)
      && ShowsRules(fc, e.routingRules, b.website.value.rules)
    case Some(Website(None, Some(r))) =>
      && b.website.Some? && b.website.value.index.None? && b.website.value.redirect.Some?
      && b.website.value.redirect.value.hostName == Some(r.hostName)
      && Holds(b.website.value.redirect.value.protocol, r.protocol)
    case _ => false
  }

  lemma RulesShown(fc: Strconv, text: string, rules: seq<RoutingRule>)
    ensures (if rules == [] then "" else RulesText(fc, rules)) == Normalize(fc, text).text <==>
              ShowsRules(fc, text, rules)
  {
    EmptyDenotesNothing(fc);
    if Denotes(fc, text) { NormalFormDenotes(fc, text); }
    if rules != [] { PrintUndone(fc, Arr(CleanRules(rules))); }
  }

  lemma WebsiteShown(fc: Strconv, spec: Spec, b: Bucket)
    ensures ReadWebsite(fc, b.website) == DesiredWebsite(fc, spec) <==> ShowsWebsite(fc, spec, b)
  {
    if spec.website.Some? && spec.website.value.endpoint.Some? && b.website.Some? {
      RulesShown(fc, spec.website.value.endpoint.value.routingRules, b.website.value.rules);
    }
  }

  predicate ShowsCors(spec: Spec, b: Bucket) {
    match spec.cors
    case None => b.cors == []
    case Some(rs) =>
      && |b.cors| == |rs|
      && forall i | 0 <= i < |rs| ::
           && b.cors[i].headers == rs[i].allowedHeaders.Items() && b.cors[i].methods == rs[i].allowedMethods.Items()
           && b.cors[i].origins == rs[i].allowedOrigins.Items() && b.cors[i].expose == rs[i].exposeHeaders.Items()
           && b.cors[i].maxAge == rs[i].maxAgeSeconds
  }

  // ---------------------------------------------------------------- all together

  predicate Shows(fc: Strconv, f: Feature, spec: Spec, b: Bucket) {
    match f
    case Tagging => ShowsTags(spec, b)
    case Policy => ShowsPolicy(fc, spec, b)
    case Acl => b.acl == (if spec.acl == "" then "private" else spec.acl)
    case Encryption => ShowsEncryption(spec, b)
    case VersioningState => b.versioning == Enabled <==> spec.versioning == Some(true)
    case LoggingTarget => ShowsLogging(spec, b)
    case WebsiteHosting => ShowsWebsite(fc, spec, b)
    case Cors => ShowsCors(spec, b)
  }

  /** A bucket agrees with a spec in a feature exactly when its stored configuration shows it. */
  lemma AgreesMeans(fc: Strconv, f: Feature, spec: Spec, b: Bucket)
    ensures Agrees(fc, f, spec, b) <==> Shows(fc, f, spec, b)
  {
    match f
    case Tagging => TagsShown(spec, b);
    case Policy => PolicyShown(fc, spec, b);
    case Encryption => EncryptionShown(spec, b);
    case WebsiteHosting => WebsiteShown(fc, spec, b);
    case _ =>
  }
}
