# The S3 bucket operator, modelled and verified

The operator keeps an S3 bucket in the state that an `S3Bucket` resource asks for. Its reconciler
(`pkg/controller/s3bucket/s3bucket_controller.go`) works on two stores that fail independently of each other: the
Kubernetes API, which holds the object, and S3, which holds the buckets. This project models that reconciler with its
helpers and proves what it keeps over every run, what one pass comes to, and what a sequence of passes converges to.

`dafny verify dfyconfig.toml` checks everything.

## How it is laid out

- `wrappers.dfy`, `characters.dfy`: `Option`, and what several parsers share.
- `json_lexer.dfy`, `json.dfy`, `normalize_json.dfy`: the parser and the key-sorting printer of `encoding/json`, and
  `NormalizeJsonString` on top of them. A text is first parsed to what it says (`Doc`, members in text order, repeated
  names included) and then to what it denotes (`Json`). Conversion between number literals and float64 is a parameter
  with the round-trip law of Go's `strconv`.
- `json_grammar.dfy`: JSON texts as RFC 8259 writes them, spelled out apart from the lexer. The parser accepts exactly
  these texts and reads them as written (`ParsesWhatIsWritten`).
- `routing_rules.dfy`: `removeNil`, `normalizeRoutingRules`, and the decoding of routing rules.
- `finalizers.dfy`, `tags.dfy`, `names.dfy`: finalizer lists, tag maps, bucket names and ARNs. Go visits a map in no
  fixed order, so loops over maps pick any key that is left.
- `api.dfy`: the resource, the S3 records, requests and replies, and what S3 does with each request.
- `features.dfy`: the eight features of a bucket, read and written, and when the two match.
- `shown.dfy`: when they match, said on the stored configuration itself, without the functions that read it.
- `protocol.dfy`: the operator and its surroundings as a state machine. Besides the two stores a state holds what the
  operator knows: `copy`, the object as it last read or stored it, and `last`, its last S3 call with the reply, and for
  which features the pass has `sent` a change. The operator decides by these, not by what is stored now. `Permitted` and
  `UpdateAllowed` say which calls it makes; `Step` says what a call may do, faults included; `Run` is any sequence of
  steps by the operator, users and outsiders. The operator may start over with a Get at any time, as it does after a
  crash.
- `environment.dfy`: the class `World` (both stores, with a trace of the current pass) and the class `Instance` (the
  in-memory object). Users and outsiders may do anything, any number of times, before every call; every call may fail at
  will, and a failed call may still have been carried out.
- `contracts.dfy`, `reconciler.dfy`: the class `ReconcileS3Bucket`, method by method after the Go code. The guards of
  the protocol are preconditions of the calls to `World`, so that the code is proved to follow the protocol; `PassSpec`
  is what a pass comes to, told by its last call. What S3 holds after a call is promised as long as the state is `calm`,
  that is, no outsider has touched S3 since the pass began.
- `runs.dfy`: safety of all runs. `convergence.dfy`: monotone repair, what a pass marks, writes, records and retries,
  convergence, refinement, quiescence, stage isolation, deletion, and the bridge from passes, crashes and outside events
  to runs (`HistoryIsRun`). `witnesses.dfy`: passes, call by call, that show what can go wrong.

The history variables `Bucket.byOperator` (the bucket came from a create of the operator), `State.calm` and `State.sent`
are not in the Go code. Requeueing and the retryable flag are modelled; reason strings are not. Theorems about runs ask
for `Coherent` at the start: what the operator holds, if anything, is an earlier version of the stored object. It holds
before the first pass and never stops to hold (`StaysCoherent`).

Four things the proofs bring to light:

- When the status update after a create fails and the object is deleted next, the bucket outlives it, whatever the
  strategy (`LeakWitness`). `NoLeak` says exactly which events lose a bucket.
- When the status update after an ACL change fails and the user takes the ACL in the spec back, the operator by itself
  never repairs the ACL (`AclDriftWitness`, `AclStaysWrong`). A successful pass repairs the ACL exactly when the status
  was right about it before (`DoneRepairs`), and `StatusMirrorsAcl` says exactly which events make it wrong.
- A routing rule that repeats `Condition` or `Redirect` is merged when it is written as given, but keeps only the last
  occurrence in its normal form (`RepeatedPartIsMerged`). Such a website is written twice: as given while none is there,
  which is not read back as desired, and in normal form by the next pass (`ConvergesInTwo`).
- A pass in flight when deletion is asked for may still create and configure the bucket (`InFlightWitness`). What a pass
  does is decided by what its Get saw (`NoResurrection`).

## Model

| member | source | states |
|---|---|---|
| Json.PrintUndone | pkg/helper/structure/normalize_json.go:17-23 | parsing the printed text of any JSON value gives that value back: the printer and the parser undo each other |
| Json.SortedMeans | pkg/helper/structure/normalize_json.go:17-23 | the sorted tree that is printed has the value it was made from |
| Json.SortedKeysAscend | pkg/helper/structure/normalize_json.go:22-23 | names are printed in strictly ascending order, whatever set of names an object has |
| Json.AtMostMeans | pkg/helper/structure/normalize_json.go:22-23 | a name comes before another if it is a prefix of it or has the smaller character at the first difference |
| JsonLexer.RenderUndone | pkg/helper/structure/normalize_json.go:17-23 | printed tokens, escapes and numbers included, are told apart again one by one |
| JsonGrammar.ParsesWhatIsWritten | pkg/helper/structure/normalize_json.go:17-21 | a text parses to a given tree exactly when it writes the tokens of that tree one after the other, each in any of its spellings, with any spaces, tabs, line feeds and carriage returns before, between and after them |
| JsonGrammar.NumberScanned | pkg/helper/structure/normalize_json.go:17-21 | the number scanner takes the longest number of RFC 8259, section 6, and accepts exactly those |
| JsonGrammar.BodyScanned | pkg/helper/structure/normalize_json.go:17-21 | every spelling of a string by RFC 8259, section 7, is read as that string: plain characters, the eight short escapes, code units in either case of hexadecimal digit, surrogate pairs, and lone surrogates as U+FFFD |
| JsonGrammar.ScannedBody | pkg/helper/structure/normalize_json.go:17-21 | whatever is read as a string is such a spelling of it, up to the closing quote |
| JsonGrammar.EscapedText | pkg/helper/structure/normalize_json.go:22-23 | the printer writes such a spelling, and escapes control characters, quotes, backslashes, angle brackets, ampersands and the separators U+2028 and U+2029, and nothing else |
| JsonGrammar.RenderPacked | pkg/helper/structure/normalize_json.go:22-23 | a printed text spells its tokens with nothing between them |
| NormalizeJson.NormalizeIdempotent | pkg/helper/structure/normalize_json.go:8-24 | normalising twice is normalising once; a text that failed fails again and stays as it is |
| NormalizeJson.SameNormalForm | pkg/helper/structure/normalize_json.go:8-24 | two JSON texts have the same normal form exactly when they denote the same value |
| NormalizeJson.NormalFormDenotes | pkg/helper/structure/normalize_json.go:8-24 | the normal form is a non-empty JSON text with the same value |
| NormalizeJson.SampleNormalForm | pkg/helper/structure/normalize_json.go:8-24 | an object with two names out of order, an array and a null: however its tokens are laid out and spelled, the normal form is one given list of tokens without blanks |
| NormalizeJson.EmptyObjectNormalForm | pkg/helper/structure/normalize_json.go:8-24 | an empty object written over two lines is a JSON text with the normal form of empty braces |
| NormalizeJson.TrimKeepsValue | pkg/controller/s3bucket/s3bucket_controller.go:541-548 | trimming Unicode space off a JSON text keeps its value and normal form, so trimming before the put does no harm |
| NormalizeJson.Trimmed | pkg/controller/s3bucket/s3bucket_controller.go:541-548 | trimming takes the white space characters of Unicode, listed one by one, off both ends, all of them and nothing else |
| RoutingRules.WithoutNullsAt | pkg/controller/s3bucket/s3bucket_controller.go:944-961 | along every path through nested objects: nulls are gone, every other place is kept |
| RoutingRules.WithoutNullsIdempotent | pkg/controller/s3bucket/s3bucket_controller.go:944-961 | removing nulls a second time changes nothing |
| RoutingRules.RemoveNil | pkg/controller/s3bucket/s3bucket_controller.go:944-961 | in any order of visiting the map, the recursion ends and gives the value without nulls that the two lemmas above describe |
| RoutingRules.NormalizeRoutingRules | pkg/controller/s3bucket/s3bucket_controller.go:920-942 | marshal, unmarshal, clean and marshal again never fails and gives the printed cleaned rules |
| RoutingRules.RulesReadBack | pkg/controller/s3bucket/s3bucket_controller.go:762-961 | written rules read back as the normal form of the desired text exactly when the array is non-empty, uses known, non-null fields only, and repeated `Condition` or `Redirect` members lose nothing: each field set by an earlier occurrence since the last null is set again by the last one |
| RoutingRules.RulesUndone | pkg/controller/s3bucket/s3bucket_controller.go:843-942 | decoding the text made of any list of rules gives that list back exactly when its conditions and redirects use the seven fields of the SDK, given by name, and no others |
| RoutingRules.OneRuleRead | pkg/controller/s3bucket/s3bucket_controller.go:843-847 | a rule with any one condition and any one redirect field, however it is laid out and spelled, is sent with just that condition and that redirect |
| RoutingRules.NormalFormSameRules | pkg/controller/s3bucket/s3bucket_controller.go:805-811 | a text and its normal form send the same rules exactly when repeated members lose nothing, or neither decodes; if the text decodes so does its normal form |
| RoutingRules.RepeatedPartIsMerged | pkg/controller/s3bucket/s3bucket_controller.go:843-847 | for a rule with two `Redirect` members the rules sent merge both, while the normal form asks for the last one only |
| Finalizers.ContainsString | pkg/helper/structure/finalizer.go:3-10 | true exactly for members |
| Finalizers.RemoveString | pkg/helper/structure/finalizer.go:12-20 | every occurrence is removed and the rest keeps its order |
| Finalizers.WithoutCounts | pkg/helper/structure/finalizer.go:12-20 | every other string keeps its multiplicity |
| Tags.TagIgnoredS3 | pkg/controller/s3bucket/s3bucket_tags.go:22-31 | the filter loop recognises exactly the keys that start with `aws:` |
| Tags.TagsToMapS3 | pkg/controller/s3bucket/s3bucket_tags.go:9-18 | the loop computes the map that the list denotes: the last value of each key that is not AWS's own |
| Tags.TagsFromMapS3 | pkg/controller/s3bucket/s3bucket_tags.go:47-60 | in any order of visiting the map, the list holds each visible pair once and nothing else |
| Tags.DiffTagsS3 | pkg/controller/s3bucket/s3bucket_tags.go:33-44 | exactly the pairs that the new map lacks or changes are to be removed; the whole new map is to be created |
| Tags.TagsRoundTrip | pkg/controller/s3bucket/s3bucket_tags.go:9-60 | decoding any encoding of a map gives the map without its `aws:` keys |
| Names.AcceptedNames | pkg/controller/s3bucket/s3bucket_controller.go:240-269 | outside us-east-1 exactly the names of 3 to 63 characters pass whose labels are non-empty and made of lower-case letters, digits and hyphens, except four labels of one to three digits each |
| Names.LabelsUndone | pkg/controller/s3bucket/s3bucket_controller.go:240-269 | the labels are the pieces between the points: they hold none, and joined by points they give the name |
| Names.EastNames | pkg/controller/s3bucket/s3bucket_controller.go:260-267 | in us-east-1 exactly the names of 1 to 255 letters of either case, digits, hyphens, points and underscores pass |
| Names.EastAcceptsMore | pkg/controller/s3bucket/s3bucket_controller.go:240-269 | us-east-1 accepts every name another region accepts, and strictly more |
| Protocol.ValidObjects | pkg/controller/s3bucket/s3bucket_controller.go:201-237 | an object passes the six checks exactly when its name is valid in the region of the spec, or of the configuration when the spec names none, its logging, website and CORS are well-formed, and its spec still names the recorded bucket and region |
| Names.ArnRoundTrip | pkg/controller/s3bucket/s3bucket_controller.go:271-277 | cutting the printed ARN at its fifth colon gives the bucket back exactly when the partition has no colon |
| Names.ArnSpelled | pkg/controller/s3bucket/s3bucket_controller.go:271-277 | the printed ARN, spelled out |
| Names.ArnParsed | pkg/controller/s3bucket/s3bucket_controller.go:1198-1203 | an ARN parses exactly when it starts with `arn:` and has five colons at least; its resource is what follows the fifth |
| Names.ArnInjective | pkg/controller/s3bucket/s3bucket_controller.go:271-277 | equal ARNs mean equal buckets |
| Features.SseFirstUsable | pkg/controller/s3bucket/s3bucket_controller.go:1090-1136 | encryption is read back exactly as written, also behind rules without an algorithm and before any others: the first usable rule wins |
| Features.LoggingRoundTrip | pkg/controller/s3bucket/s3bucket_controller.go:1010-1040 | logging, on or off, is read back exactly as written |
| Features.CorsRoundTrip | pkg/controller/s3bucket/s3bucket_controller.go:674-760 | stored CORS rules compare equal to the desired ones, nil and empty lists counting as equal, exactly when they are the ones that would be written |
| Features.CorsNeedsEquateEmpty | pkg/controller/s3bucket/s3bucket_controller.go:674-760 | plain equality would fail: a nil list is read back as an empty one |
| Features.WebsiteReadBack | pkg/controller/s3bucket/s3bucket_controller.go:827-918 | what the stage writes, as given while no website is there and in normal form otherwise, is read back as desired exactly when it has an index document and canonical rules, in which repeated members lose nothing if written as given, or redirects to a named host |
| Features.PolicyReadBack | pkg/controller/s3bucket/s3bucket_controller.go:491-577 | a policy put after trimming is read back as the normal form of the desired one |
| Features.BlankPolicyFails | pkg/controller/s3bucket/s3bucket_controller.go:541-577 | a policy of white space only fails to normalise, so the delete branch is reached for an empty policy only |
| Features.TagsReadBack | pkg/controller/s3bucket/s3bucket_controller.go:403-462 | after a put, whatever tags AWS keeps of its own, the tags read are the desired ones without `aws:` keys |
| ShownFeatures.AgreesMeans | pkg/controller/s3bucket/s3bucket_controller.go:376-1136 | for each of the eight features: the comparison that a stage makes comes out equal exactly when the stored configuration, field by field, is what the spec asks for |
| Reconciler.ReconcileS3Bucket.ReadBucketTags | pkg/controller/s3bucket/s3bucket_controller.go:451-462 | no tag set reads as no tags; other failures are not worth a retry and are blamed on the call |
| Reconciler.ReconcileS3Bucket.ReconcileBucketTags | pkg/controller/s3bucket/s3bucket_controller.go:403-449 | without an error the visible tags are the desired ones without `aws:` keys; a write is issued exactly when the visible tags differ from the desired map; the stage writes only where there is something to write |
| Reconciler.ReconcileS3Bucket.ReadBucketPolicy | pkg/controller/s3bucket/s3bucket_controller.go:514-539 | the normal form of the stored policy, a text that is not JSON as it is, nothing for a 404 |
| Reconciler.ReconcileS3Bucket.UpdateBucketPolicy | pkg/controller/s3bucket/s3bucket_controller.go:541-577 | after a put of the trimmed policy or a delete, the policy agrees with the spec or the failed call is blamed |
| Reconciler.ReconcileS3Bucket.ReconcileBucketPolicy | pkg/controller/s3bucket/s3bucket_controller.go:491-512 | without an error the policy agrees with the spec in normal form; nothing but the policy is touched; an error is a failed call of this stage or a policy that is not JSON |
| Reconciler.ReconcileS3Bucket.ReadBucketEncryption | pkg/controller/s3bucket/s3bucket_controller.go:1112-1136 | the first usable rule, or none; a missing configuration is no error |
| Reconciler.ReconcileS3Bucket.UpdateBucketEncryption | pkg/controller/s3bucket/s3bucket_controller.go:1090-1110 | the rule put makes the encryption agree with the spec |
| Reconciler.ReconcileS3Bucket.ReconcileBucketEncryption | pkg/controller/s3bucket/s3bucket_controller.go:1042-1088 | without an error the encryption agrees with the spec over all four cases of present and wanted; nothing else is touched |
| Reconciler.ReconcileS3Bucket.ReadBucketVersioning | pkg/controller/s3bucket/s3bucket_controller.go:624-641 | enabled is told from suspended and from never set |
| Reconciler.ReconcileS3Bucket.ReconcileBucketVersioning | pkg/controller/s3bucket/s3bucket_controller.go:579-622 | without an error versioning agrees with the spec; a bucket that is as asked, never versioned included, is left as it is |
| Reconciler.ReconcileS3Bucket.ReadBucketLogging | pkg/controller/s3bucket/s3bucket_controller.go:1023-1040 | the logging target as stored, or none |
| Reconciler.ReconcileS3Bucket.UpdateBucketLogging | pkg/controller/s3bucket/s3bucket_controller.go:1010-1021 | the target put makes logging agree with the spec |
| Reconciler.ReconcileS3Bucket.ReconcileBucketLogging | pkg/controller/s3bucket/s3bucket_controller.go:963-1008 | without an error logging agrees with the spec; nothing else is touched |
| Reconciler.ReconcileS3Bucket.ReadBucketCors | pkg/controller/s3bucket/s3bucket_controller.go:717-760 | the loop reads every stored rule; no rules and no configuration are the same |
| Reconciler.ReconcileS3Bucket.UpdateBucketCors | pkg/controller/s3bucket/s3bucket_controller.go:694-715 | the loop writes every desired rule and CORS agrees with the spec afterwards |
| Reconciler.ReconcileS3Bucket.ReconcileBucketCors | pkg/controller/s3bucket/s3bucket_controller.go:643-692 | without an error CORS agrees with the spec up to nil and empty lists; nothing else is touched |
| Reconciler.ReconcileS3Bucket.ReadBucketWebsite | pkg/controller/s3bucket/s3bucket_controller.go:873-918 | an endpoint when there is an index document, else a redirect when there is a host, else nothing; a store that answers NotImplemented for a bucket without a website reads as nothing |
| Reconciler.ReconcileS3Bucket.UpdateBucketWebsite | pkg/controller/s3bucket/s3bucket_controller.go:827-871 | rules that do not decode are an error and nothing is sent; otherwise the website, as given or in normal form, is written, and agrees with the spec exactly if it can be read back |
| Reconciler.ReconcileS3Bucket.ReconcileBucketWebsite | pkg/controller/s3bucket/s3bucket_controller.go:762-825 | a write is issued exactly when the website differs; without an error the routing rules were usable as needed, and the website agrees exactly if it did before or can be read back as written; the in-memory object changes at most in its routing rules, which take their normal form |
| Reconciler.ReconcileS3Bucket.ReconcileBucketAcl | pkg/controller/s3bucket/s3bucket_controller.go:464-489 | no call and no error when the status shows the desired ACL; otherwise, without an error, both the bucket and the stored status have it |
| Reconciler.ReconcileS3Bucket.UpdateInstance | pkg/controller/s3bucket/s3bucket_controller.go:1180-1186 | on success the stored object is the instance with the next version; on failure the error is not worth a retry |
| Reconciler.ReconcileS3Bucket.ReconcileBucket | pkg/controller/s3bucket/s3bucket_controller.go:376-402 | without an error all eight stages hold together at the end; with one, the stage of the last call stopped: all earlier stages hold and all later features are as they were |
| Reconciler.ReconcileS3Bucket.CheckBucketExists | pkg/controller/s3bucket/s3bucket_controller.go:357-374 | without an error the answer is whether the bucket exists |
| Reconciler.ReconcileS3Bucket.CreateBucket | pkg/controller/s3bucket/s3bucket_controller.go:1138-1174 | without an error a fresh bucket exists and its ARN, region and ACL are in the stored status |
| Reconciler.ReconcileS3Bucket.AcquireBucketOwnership | pkg/controller/s3bucket/s3bucket_controller.go:319-355 | without an error the ARN and the location, if there is one, are stored and no bucket changed; it refuses exactly a location that disagrees |
| Reconciler.ReconcileS3Bucket.ReconcileInstance | pkg/controller/s3bucket/s3bucket_controller.go:292-317 | without an error the bucket exists, is recorded and agrees with the spec; an error is a failed call or unusable JSON of one stage, with all earlier stages holding, or comes before the stages and leaves existing buckets as they were |
| Reconciler.ReconcileS3Bucket.DeleteBucketObjects | pkg/controller/s3bucket/s3bucket_controller.go:1235-1247 | without an error the bucket has no objects left |
| Reconciler.ReconcileS3Bucket.DeleteBucket | pkg/controller/s3bucket/s3bucket_controller.go:1188-1233 | no call and no error under the strategy Skip or without an ARN that parses; without an error the object may be let go: that, or S3 has just said that the recorded bucket is gone; an error is a failed call to S3, or a bucket with objects under a strategy that does not force |
| Reconciler.ReconcileS3Bucket.AddFinalizer | pkg/controller/s3bucket/s3bucket_controller.go:135-143 | afterwards the stored object carries the finalizer, with spec and status as before, or the pass is requeued |
| Reconciler.ReconcileS3Bucket.RemoveFinalizer | pkg/controller/s3bucket/s3bucket_controller.go:153-157 | afterwards the object is gone or no longer carries the finalizer, or the pass is requeued |
| Reconciler.ReconcileS3Bucket.Reconcile | pkg/controller/s3bucket/s3bucket_controller.go:121-175 | every pass is a run of the protocol with one Get, its first call; it is requeued only when the update that marks the object, or lets it go, failed; a complaint about the spec comes with the object marked; it ends without an error only if everything is repaired and recorded or the finalizer is gone; otherwise its last call tells the stage that failed, all earlier stages hold and later features are as they were; retryability is that of the failed call |
| Runs.StaysCoherent | pkg/controller/s3bucket/s3bucket_controller.go:121-175 | what the operator holds stays an earlier version of the stored object with the same status, whatever users do between its calls |
| Runs.WriteOnce | pkg/controller/s3bucket/s3bucket_controller.go:224-235 | in every run the recorded ARN and location never change once set, and deletion is never taken back |
| Runs.OneTarget | pkg/controller/s3bucket/s3bucket_controller.go:201-237 | after the ARN is recorded every call, through any spec edits, is about the recorded bucket |
| Runs.OneBucket | pkg/controller/s3bucket/s3bucket_controller.go:1188-1233 | all configuring, deleting and emptying in a whole run is about one and the same bucket |
| Runs.Provenance | pkg/controller/s3bucket/s3bucket_controller.go:292-355 | an ARN appears only when the last call before was a successful create of that bucket, or a location request answered by a place that does not disagree under the strategy Acquire |
| Runs.OwnershipSafety | pkg/controller/s3bucket/s3bucket_controller.go:292-355 | whatever outsiders create and users edit, the operator changes or deletes an existing bucket only after recording its ARN that way |
| Runs.NoResurrection | pkg/controller/s3bucket/s3bucket_controller.go:144-162 | the calls of a pass are deletions exactly when its Get saw the deletion timestamp: otherwise it creates and configures, and with it never; emptying needs Force and a plain delete just refused with BucketNotEmpty |
| Runs.NothingAfterDeletion | pkg/controller/s3bucket/s3bucket_controller.go:144-162 | every pass that begins after the deletion timestamp was set creates and configures nothing |
| Runs.SkipSpares | pkg/controller/s3bucket/s3bucket_controller.go:1188-1233 | over all runs: a call that deletes or empties a bucket is made for an object under deletion that carries the finalizer, not under the strategy Skip, about the recorded bucket; emptying only under Force |
| Runs.ValidatedFirst | pkg/controller/s3bucket/s3bucket_controller.go:135-175 | every other call to S3 is made for a valid object that carries the finalizer, about the bucket of its spec; only a bucket with its own ARN recorded is configured; a create asks for the ACL and the region of the spec, or their defaults |
| Witnesses.InFlightWitness | pkg/controller/s3bucket/s3bucket_controller.go:121-175 | a pass that read the object before the timestamp was set still creates the bucket after it |
| Runs.FinalizerGuards | pkg/controller/s3bucket/s3bucket_controller.go:135-162 | buckets are created only under a stored finalizer; it is taken off only under Skip, without an ARN that parses, or when S3 has just said that the recorded bucket is gone |
| Runs.UsersDataKept | pkg/controller/s3bucket/s3bucket_controller.go:1180-1186 | no update alters the stored spec; finalizers of others keep order and multiplicity, and ours occurs at most once if it did at the start |
| Runs.VersioningNeverUndone | pkg/controller/s3bucket/s3bucket_controller.go:579-622 | operator steps never take an enabled or suspended bucket back to unversioned |
| Runs.NoLeak | pkg/controller/s3bucket/s3bucket_controller.go:1138-1233 | as long as the strategy at release is not Skip, every bucket the operator created is held by the object throughout a run exactly when no create gets lost (carried out unacknowledged, or not recorded while no ARN is); then none outlives the object |
| Witnesses.LeakWitness | pkg/controller/s3bucket/s3bucket_controller.go:1188-1200 | a pass whose status update fails, a request for deletion, and a pass that lets the object go: the created bucket is left, under the strategy Delete |
| Runs.StatusMirrorsAcl | pkg/controller/s3bucket/s3bucket_controller.go:464-489 | throughout a run the recorded ACL is empty or real exactly when no contradicting ACL takes effect unacknowledged, stays unrecorded, or is set by an outsider |
| Runs.RecordingSuffices | pkg/controller/s3bucket/s3bucket_controller.go:464-489 | that is so if every create and ACL change is acknowledged and recorded and nobody else changes the ACL |
| Runs.AclStaysWrong | pkg/controller/s3bucket/s3bucket_controller.go:464-489 | while only the operator acts, the ACL of an owned bucket that its status wrongly shows as desired stays as it is, however many passes are made |
| Witnesses.AclDriftWitness | pkg/controller/s3bucket/s3bucket_controller.go:464-489 | a pass whose status update after an ACL change fails, and an edit back: the ACL is wrong and stays wrong in every run of the operator alone |
| Convergence.NeverWorse | pkg/controller/s3bucket/s3bucket_controller.go:376-489 | while the spec stays, the set of features that differ from it never grows between any two calls of a run, whatever fails |
| Convergence.StaysSteady | pkg/controller/s3bucket/s3bucket_controller.go:464-489 | with any faults: if the stored ACL says desired then the real one is, the object stays valid and its ARN recorded |
| Convergence.DoneRepairs | pkg/controller/s3bucket/s3bucket_controller.go:121-175 | a pass that returns no error leaves nothing that differs from the spec exactly when the status was not wrong about the ACL before, and the website agreed or can be read back as the pass writes it |
| Convergence.PassOutcome | pkg/controller/s3bucket/s3bucket_controller.go:121-175 | a pass without faults returns no error exactly when the object is valid, its JSON is usable as the pass needs it, and the bucket is missing, recorded or acquirable |
| Convergence.MarkedFirst | pkg/controller/s3bucket/s3bucket_controller.go:135-143 | in every undisturbed pass over an object not under deletion: if the finalizer is missing, the first call after the Get is the update that appends it; the pass is requeued exactly when that update fails, and otherwise the stored object carries the finalizer at the end, whatever the pass comes to |
| Convergence.RecordedStatus | pkg/controller/s3bucket/s3bucket_controller.go:319-355 | a pass that returns no error has recorded the ARN, the ACL and the location: that of the spec or its default for a bucket it created, the one S3 gave, if any, for one it acquired, and else what it was |
| Convergence.OthersUntouched | pkg/controller/s3bucket/s3bucket_controller.go:292-317 | such a pass leaves every other bucket alone |
| Convergence.RetriedPasses | pkg/controller/s3bucket/s3bucket_controller.go:292-402 | over a valid, recorded object with usable JSON, or one under deletion, a failed pass ends with a failed call and asks for a retry exactly for the error codes listed by kind of call |
| Convergence.WritesRepair | pkg/controller/s3bucket/s3bucket_controller.go:403-1136 | a change that takes effect while no outsider acts was needed (the ACL apart), touches its feature alone and makes it show what the spec asks for; deleting tags leaves exactly those of AWS |
| Convergence.StaleTagsFirst | pkg/controller/s3bucket/s3bucket_controller.go:403-449 | a tag call is a delete exactly when some current pair is missing or changed in the desired map, and otherwise a put |
| Convergence.Converges | pkg/controller/s3bucket/s3bucket_controller.go:121-175 | after any number of failing passes, one pass without faults repairs everything, and later faults spoil nothing, for a website that can be read back as given |
| Convergence.ConvergesInTwo | pkg/controller/s3bucket/s3bucket_controller.go:762-825 | when repeated members of the routing rules get lost in the first write, two passes without faults repair everything |
| Convergence.OnePassAfterAnything | pkg/controller/s3bucket/s3bucket_controller.go:121-175 | after any history of faults, crashes, edits and outside changes in which the status does not get out of step with the ACL, one pass without faults brings the bucket of a valid object in line with the spec |
| Convergence.OverwriteAgrees | pkg/controller/s3bucket/s3bucket_controller.go:376-402 | overwriting the configuration with the spec makes each of the eight features agree |
| Convergence.PassOverwrites | pkg/controller/s3bucket/s3bucket_controller.go:376-1136 | over any prior configuration a pass without faults looks like overwriting it with the spec, and no other bucket is touched |
| Convergence.Quiescence | pkg/controller/s3bucket/s3bucket_controller.go:376-402 | after a successful pass, a further one that returns no error only reads exactly when no `aws:` tag is asked for and the website came to agree |
| Convergence.SettledPass | pkg/controller/s3bucket/s3bucket_controller.go:376-402 | a pass that finds everything in order only reads and changes neither store, whatever fails |
| Convergence.TagsSettle | pkg/controller/s3bucket/s3bucket_controller.go:403-414 | once the tags agree the tag stage has nothing to write exactly when no `aws:` key is asked for |
| Convergence.WebsiteSettles | pkg/controller/s3bucket/s3bucket_controller.go:762-825 | a successful pass sends a website write exactly when the website differs, and it then agrees exactly when it can be read back as written; so a website that cannot is written by every such pass |
| Convergence.StageIsolation | pkg/controller/s3bucket/s3bucket_controller.go:376-402 | the last call of a failed pass tells all: if it belongs to a repair stage, in the order tags, policy, ACL, encryption, versioning, logging, website, CORS every earlier feature matches the spec (the website if it can) and every later one is as it was; if not, existing buckets are as they were |
| Convergence.DeletionOutcome | pkg/controller/s3bucket/s3bucket_controller.go:144-162 | a pass without faults over an object under deletion succeeds exactly when the bucket is not blocked by its objects; then the finalizer is gone, and the bucket too unless the strategy is Skip |
| Convergence.SkippedPass | pkg/controller/s3bucket/s3bucket_controller.go:1188-1192 | under the strategy Skip an undisturbed pass over an object under deletion makes no call to S3 and leaves every bucket as it was; without faults it lets the object go |
| Convergence.HistoryIsRun | pkg/controller/s3bucket/s3bucket_controller.go:121-175 | passes, passes cut short by crashes, and outside events in any order make up a run, so all that holds of runs holds of them |

## Left out

- Reconcile: what S3 holds after a pass is promised for passes during which no outsider touched S3; ownership, targets, finalizers, leaks and deletion are proved for all runs.
- Converges: nobody but the operator acts while the passes run; for a website that cannot be read back in either form the code never settles (`WebsiteSettles`).
- NormalizeJson: texts are Unicode scalar values, not bytes, so invalid UTF-8 is not modelled; float64 values are opaque and their conversion is a parameter.
- RulesOf: names of fields match exactly, not regardless of case; a number out of range in a field the SDK does not know is an error in the model and skipped by Go; null elements are dropped, as the SDK does not send them.
- Faults: a call may fail with NoSuchBucket (a delete only truthfully), OperationAborted or a server error, whether or not it took effect; S3 never falsely reports a configuration as absent or a bucket as not empty.
- UserEdit: users do not write the status, nor add or remove the operator's finalizer; an object is not created again under the same name within a run.
- AWS client construction, credentials, EC2 metadata, account lookup, regions and the SDK's retry handlers and parameter checks.
- Process start, flags, logging, events and their texts, webhook and scheme registration, generated code.
- The API server's cache and the work queue; one pass at a time works on an object.
- Policy evaluation, KMS and rejection rules of S3, special treatment of us-east-1 in create, and paging: emptying a bucket is one call.
