/**
  Website routing rules: `removeNil`, `normalizeRoutingRules` and the decoding done by
  `updateBucketWebsite`.  The SDK structs `Condition` and `Redirect` hold optional strings
  only; each is modelled by the map of those fields that are set.
 */
module RoutingRules {
  import opened Wrappers
  import opened JsonLexer
  import opened Json
  import opened JsonGrammar
  import opened NormalizeJson

  type Fields = map<string, string>

  datatype RoutingRule = RoutingRule(condition: Option<Fields>, redirect: Option<Fields>)

  const CONDITION := "Condition"
  const REDIRECT := "Redirect"
  const CONDITION_FIELDS := {"HttpErrorCodeReturnedEquals", "KeyPrefixEquals"}
  const REDIRECT_FIELDS := {"HostName", "HttpRedirectCode", "Protocol", "ReplaceKeyPrefixWith", "ReplaceKeyWith"}

  lemma NamesDiffer()
    ensures CONDITION != REDIRECT
  {
    assert CONDITION[0] != REDIRECT[0];
  }

  // ---------------------------------------------------------------- null removal

  /** `j` without the nulls that sit in objects reached through objects only. */
  function WithoutNulls(j: Json): (r: Json)
    ensures r.Obj? <==> j.Obj?
  {
    if j.Obj? then Obj(map k | k in j.members && j.members[k] != Nil :: WithoutNulls(j.members[k])) else j
  }

  /** The value found by following names through nested objects. */
  function At(j: Json, path: seq<string>): Option<Json>
    decreases |path|
  {
    if path == [] then Some(j)
    else if j.Obj? && path[0] in j.members then At(j.members[path[0]], path[1..])
    else None
  }

  /** Exactly the nulls below the top are gone; every other place holds what it held, cleaned. */
  lemma {:induction false} WithoutNullsAt(j: Json, path: seq<string>)
    requires path != []
    ensures At(WithoutNulls(j), path) ==
            match At(j, path)
            case None => None
            case Some(v) => if v == Nil then None else Some(WithoutNulls(v))
    decreases |path|
  {
    if j.Obj? && path[0] in j.members {
      var v := j.members[path[0]];
      if |path| == 1 {
        assert path[1..] == [];
      } else if v != Nil {
        WithoutNullsAt(v, path[1..]);
      }
    }
  }

  lemma {:induction false} WithoutNullsIdempotent(j: Json)
    ensures WithoutNulls(WithoutNulls(j)) == WithoutNulls(j)
  {
    if j.Obj? {
      var once := WithoutNulls(j);
      forall k | k in once.members ensures once.members[k] != Nil && WithoutNulls(once.members[k]) == once.members[k] {
        WithoutNullsIdempotent(j.members[k]);
      }
      assert WithoutNulls(once).members == once.members;
    }
  }

  /** `removeNil`: visits the names in any order and recurses into objects. */
  method RemoveNil(data: Json) returns (withoutNil: map<string, Json>)
    requires data.Obj?
    ensures Obj(withoutNil) == WithoutNulls(data)
    decreases data
  {
    withoutNil := map[];
    var left := data.members.Keys;
    while left != {}
      invariant left <= data.members.Keys
      invariant forall k :: k in withoutNil <==> k in data.members && k !in left && data.members[k] != Nil
      invariant forall k | k in withoutNil :: withoutNil[k] == WithoutNulls(data.members[k])
      decreases left
    {
      var k :| k in left;
      left := left - {k};
      var v := data.members[k];
      if v == Nil { continue; }
      if v.Obj? {
        var cleaned := RemoveNil(v);
        withoutNil := withoutNil[k := Obj(cleaned)];
      } else {
        withoutNil := withoutNil[k := v];
      }
    }
    assert withoutNil == WithoutNulls(data).members;
  }

  // ---------------------------------------------------------------- encoding

  function EncodeFields(names: set<string>, f: Fields): Json {
    Obj(map k | k in names :: if k in f then Str(f[k]) else Nil)
  }

  function EncodePart(names: set<string>, part: Option<Fields>): Json {
    if part.None? then Nil else EncodeFields(names, part.value)
  }

  /** `json.Marshal` of one rule: every field is written, unset ones as null. */
  function EncodeRule(r: RoutingRule): (j: Json)
    ensures j.Obj?
  {
    Obj(map[CONDITION := EncodePart(CONDITION_FIELDS, r.condition),
            REDIRECT := EncodePart(REDIRECT_FIELDS, r.redirect)])
  }

  function CleanRule(r: RoutingRule): Json { WithoutNulls(EncodeRule(r)) }

  function CleanRules(rs: seq<RoutingRule>): seq<Json> { seq(|rs|, i requires 0 <= i < |rs| => CleanRule(rs[i])) }

  /** The text read back for stored rules. */
  function RulesText(fc: Strconv, rs: seq<RoutingRule>): string {
    Print(fc, if rs == [] then Nil else Arr(CleanRules(rs)))
  }

  /** `normalizeRoutingRules`: print, parse, drop the nulls rule by rule, print again. */
  method NormalizeRoutingRules(fc: Strconv, w: seq<RoutingRule>) returns (text: Option<string>)
    ensures text == Some(RulesText(fc, w))
  {
    var encoded := Arr(seq(|w|, i requires 0 <= i < |w| => EncodeRule(w[i])));
    var withNulls := Print(fc, encoded);
    var rules := Parse(fc, withNulls);
    PrintUndone(fc, encoded);
    if rules.None? || !rules.value.Arr? { return None; }
    var elements := rules.value.elements;
    var cleanRules: seq<Json> := [];
    var i := 0;
    while i < |elements|
      invariant i <= |elements| && |cleanRules| == i
      invariant forall n | 0 <= n < i :: cleanRules[n] == CleanRule(w[n])
    {
      if !elements[i].Obj? { return None; }
      var cleaned := RemoveNil(elements[i]);
      cleanRules := cleanRules + [Obj(cleaned)];
      i := i + 1;
    }
    assert cleanRules == CleanRules(w);
    text := Some(Print(fc, if cleanRules == [] then Nil else Arr(cleanRules)));
  }

  // ---------------------------------------------------------------- decoding

  /**
    `json.Unmarshal` into a struct of optional strings: members in text order, a null unsets its
    field, other names are skipped, anything but a string or null is an error (None).
   */
  function DecodeFields(names: set<string>, ms: seq<Member>, f: Fields): Option<Fields> {
    if ms == [] then Some(f)
    else if ms[0].name !in names then DecodeFields(names, ms[1..], f)
    else if ms[0].value.StrDoc? then DecodeFields(names, ms[1..], f[ms[0].name := ms[0].value.s])
    else if ms[0].value.NilDoc? then DecodeFields(names, ms[1..], f - {ms[0].name})
    else None
  }

  /** A part that is there already is decoded into, so its fields stay unless set again; a null unsets the part. */
  function DecodePart(names: set<string>, d: Doc, part: Option<Fields>): Option<Option<Fields>> {
    match d
    case NilDoc => Some(None)
    case ObjDoc(ms) =>
      (match DecodeFields(names, ms, part.GetOr(map[]))
       case None => None
       case Some(f) => Some(Some(f)))
    case _ => None
  }

  function DecodeRule(ms: seq<Member>, r: RoutingRule): Option<RoutingRule> {
    if ms == [] then Some(r)
    else if ms[0].name == CONDITION then
      match DecodePart(CONDITION_FIELDS, ms[0].value, r.condition)
      case None => None
      case Some(c) => DecodeRule(ms[1..], r.(condition := c))
    else if ms[0].name == REDIRECT then
      match DecodePart(REDIRECT_FIELDS, ms[0].value, r.redirect)
      case None => None
      case Some(d) => DecodeRule(ms[1..], r.(redirect := d))
    else DecodeRule(ms[1..], r)
  }

  const NO_RULE := RoutingRule(None, None)

  /** Null elements become nil pointers, which the SDK does not send. */
  function DecodeElements(es: seq<Doc>): Option<seq<RoutingRule>> {
    if es == [] then Some([])
    else
      match DecodeElements(es[1..])
      case None => None
      case Some(rs) =>
        if es[0].NilDoc? then Some(rs)
        else if !es[0].ObjDoc? then None
        else
          match DecodeRule(es[0].members, NO_RULE)
          case None => None
          case Some(r) => Some([r] + rs)
  }

  /** `json.Unmarshal` into a slice of rules; None is an error. */
  function DecodeRules(d: Doc): Option<seq<RoutingRule>> {
    match d
    case NilDoc => Some([])
    case ArrDoc(es) => DecodeElements(es)
    case _ => None
  }

  /** The rules that a routing-rules text asks for; None is an error. */
  function RulesOf(fc: Strconv, text: string): Option<seq<RoutingRule>> {
    if text == "" then Some([])
    else
      match ParseDoc(fc, text)
      case None => None
      case Some(d) => DecodeRules(d)
  }

  // ---------------------------------------------------------------- parts of a rule, occurrence by occurrence

  /** A part decoded from all its occurrences in a rule. */
  function DecodeParts(names: set<string>, ds: seq<Doc>, part: Option<Fields>): Option<Option<Fields>> {
    if ds == [] then Some(part)
    else
      match DecodePart(names, ds[0], part)
      case None => None
      case Some(p) => DecodeParts(names, ds[1..], p)
  }

  /** The two parts do not interfere. */
  lemma {:induction false} RuleByParts(ms: seq<Member>, r: RoutingRule)
    ensures var c := DecodeParts(CONDITION_FIELDS, Occurrences(ms, CONDITION), r.condition);
            var d := DecodeParts(REDIRECT_FIELDS, Occurrences(ms, REDIRECT), r.redirect);
            DecodeRule(ms, r) == if c.Some? && d.Some? then Some(RoutingRule(c.value, d.value)) else None
  {
    NamesDiffer();
    if ms != [] {
      var rest := ms[1..];
      var name, value := ms[0].name, ms[0].value;
      if name == CONDITION {
        assert Occurrences(ms, CONDITION)[1..] == Occurrences(rest, CONDITION);
        var p := DecodePart(CONDITION_FIELDS, value, r.condition);
        if p.Some? { RuleByParts(rest, r.(condition := p.value)); }
      } else if name == REDIRECT {
        assert Occurrences(ms, REDIRECT)[1..] == Occurrences(rest, REDIRECT);
        var p := DecodePart(REDIRECT_FIELDS, value, r.redirect);
        if p.Some? { RuleByParts(rest, r.(redirect := p.value)); }
      } else {
        RuleByParts(rest, r);
      }
    }
  }

  lemma {:induction false} PartsLast(names: set<string>, ds: seq<Doc>, part: Option<Fields>)
    requires ds != []
    ensures var p := DecodeParts(names, ds[..|ds| - 1], part);
            DecodeParts(names, ds, part) == if p.None? then None else DecodePart(names, ds[|ds| - 1], p.value)
  {
    var init := ds[..|ds| - 1];
    if |ds| > 1 {
      assert init[1..] == ds[1..][..|ds| - 2];
      var p := DecodePart(names, ds[0], part);
      if p.Some? { PartsLast(names, ds[1..], p.value); }
    }
  }

  /** The string fields of an object. */
  function StringFields(names: set<string>, m: map<string, Json>): Fields {
    map k | k in names && k in m && m[k].Str? :: m[k].s
  }

  /** `f` with the fields that `m` names set or unset as `m` says. */
  function Overlay(names: set<string>, m: map<string, Json>, f: Fields): Fields {
    (f - m.Keys) + StringFields(names, m)
  }

  lemma OverlayStep(names: set<string>, k: string, v: Json, rest: map<string, Json>, f: Fields)
    requires f.Keys <= names && (k in names ==> v.Str? || v == Nil)
    ensures Overlay(names, map[k := v] + rest, f) ==
            Overlay(names, rest, if k !in names then f else if v.Str? then f[k := v.s] else f - {k})
  {
    var m := map[k := v] + rest;
    var g := if k !in names then f else if v.Str? then f[k := v.s] else f - {k};
    assert m.Keys == {k} + rest.Keys;
    forall n ensures n in Overlay(names, m, f) <==> n in Overlay(names, rest, g) {}
    forall n | n in Overlay(names, m, f) ensures Overlay(names, m, f)[n] == Overlay(names, rest, g)[n] {}
  }

  /** Members decoded in turn come to what the object as a whole says. */
  lemma {:induction false} FieldsDecoded(names: set<string>, ms: seq<Member>, f: Fields)
    requires f.Keys <= names
    ensures var g, m := DecodeFields(names, ms, f), MeaningOf(ms);
            g.Some? ==>
              && g.value == Overlay(names, m, f) && g.value.Keys <= names
              && (forall k | k in names && k in m :: m[k].Str? || m[k] == Nil)
  {
    if ms != [] {
      var k, v := ms[0].name, ms[0].value;
      var step := if k !in names then f else if v.StrDoc? then f[k := v.s] else f - {k};
      FieldsDecoded(names, ms[1..], step);
      if k !in names || v.StrDoc? || v.NilDoc? { OverlayStep(names, k, Meaning(v), MeaningOf(ms[1..]), f); }
    }
  }

  /** The fields that a part has after some of its occurrences, starting with `s`. */
  function LeftSet(names: set<string>, ds: seq<Doc>, s: set<string>): set<string> {
    if ds == [] then s
    else
      LeftSet(names, ds[1..],
              match ds[0]
              case NilDoc => {}
              case ObjDoc(ms) => (s - MeaningOf(ms).Keys) + StringFields(names, MeaningOf(ms)).Keys
              case _ => s)
  }

  lemma {:induction false} PartsKeys(names: set<string>, ds: seq<Doc>, part: Option<Fields>)
    requires part.GetOr(map[]).Keys <= names
    ensures var p := DecodeParts(names, ds, part);
            p.Some? ==>
              && p.value.GetOr(map[]).Keys == LeftSet(names, ds, part.GetOr(map[]).Keys)
              && p.value.GetOr(map[]).Keys <= names
  {
    var none: Fields := map[];
    assert none.Keys == {};
    if ds != [] && DecodePart(names, ds[0], part).Some? {
      if ds[0].ObjDoc? {
        var f, m := part.GetOr(map[]), MeaningOf(ds[0].members);
        FieldsDecoded(names, ds[0].members, f);
        assert Overlay(names, m, f).Keys == (f.Keys - m.Keys) + StringFields(names, m).Keys;
      }
      PartsKeys(names, ds[1..], DecodePart(names, ds[0], part).value);
    }
  }

  /** Every field that earlier occurrences leave set is named again by the last one. */
  predicate SetAgain(names: set<string>, ds: seq<Doc>) {
    ds != [] && ds[|ds| - 1].ObjDoc? ==>
      LeftSet(names, ds[..|ds| - 1], {}) <= MeaningOf(ds[|ds| - 1].members).Keys
  }

  predicate RuleCovered(e: Doc) {
    e.ObjDoc? ==>
      && SetAgain(CONDITION_FIELDS, Occurrences(e.members, CONDITION))
      && SetAgain(REDIRECT_FIELDS, Occurrences(e.members, REDIRECT))
  }

  /** Repeated parts lose nothing: only their last occurrences matter. */
  predicate Covered(d: Doc) { d.ArrDoc? ==> forall e | e in d.elements :: RuleCovered(e) }

  /** What a part comes to: what its last occurrence says, over what the earlier ones left. */
  lemma PartFinal(names: set<string>, ds: seq<Doc>) returns (f: Fields)
    requires ds != [] && DecodeParts(names, ds, None).Some?
    ensures var p, last := DecodeParts(names, ds, None).value, ds[|ds| - 1];
            && (last.NilDoc? ==> p.None?)
            && (!last.NilDoc? ==>
                  && last.ObjDoc? && p == Some(Overlay(names, MeaningOf(last.members), f))
                  && (forall k | k in names && k in MeaningOf(last.members) ::
                        MeaningOf(last.members)[k].Str? || MeaningOf(last.members)[k] == Nil))
    ensures f.Keys == LeftSet(names, ds[..|ds| - 1], {}) && f.Keys <= names
  {
    var none: Option<Fields> := None;
    assert none.GetOr(map[]).Keys == {};
    PartsLast(names, ds, None);
    PartsKeys(names, ds[..|ds| - 1], None);
    f := DecodeParts(names, ds[..|ds| - 1], None).value.GetOr(map[]);
    if ds[|ds| - 1].ObjDoc? { FieldsDecoded(names, ds[|ds| - 1].members, f); }
  }

  // ---------------------------------------------------------------- round trip

  predicate CanonicalPart(names: set<string>, j: Json) {
    j.Obj? && j.members.Keys <= names && forall k | k in j.members :: j.members[k].Str?
  }

  predicate CanonicalRule(j: Json) {
    && j.Obj?
    && (forall k | k in j.members :: k == CONDITION || k == REDIRECT)
    && (CONDITION in j.members ==> CanonicalPart(CONDITION_FIELDS, j.members[CONDITION]))
    && (REDIRECT in j.members ==> CanonicalPart(REDIRECT_FIELDS, j.members[REDIRECT]))
  }

  /** A non-empty array of rules that use known fields only and hold no null. */
  predicate CanonicalRules(j: Json) {
    j.Arr? && j.elements != [] && forall e | e in j.elements :: CanonicalRule(e)
  }

  lemma FieldsUndone(names: set<string>, f: Fields)
    ensures WithoutNulls(EncodeFields(names, f)) == Obj(map k | k in names && k in f :: Str(f[k]))
  {
    var e := EncodeFields(names, f);
    assert WithoutNulls(e).members == (map k | k in names && k in f :: Str(f[k]));
  }

  lemma CleanRuleShape(r: RoutingRule)
    ensures var m := CleanRule(r).members;
            && (forall k :: k in m <==> (k == CONDITION && r.condition.Some?) || (k == REDIRECT && r.redirect.Some?))
            && (r.condition.Some? ==> m[CONDITION] == WithoutNulls(EncodeFields(CONDITION_FIELDS, r.condition.value)))
            && (r.redirect.Some? ==> m[REDIRECT] == WithoutNulls(EncodeFields(REDIRECT_FIELDS, r.redirect.value)))
  {
    NamesDiffer();
  }

  lemma CleanRuleIsCanonical(r: RoutingRule)
    ensures CanonicalRule(CleanRule(r))
  {
    CleanRuleShape(r);
    if r.condition.Some? { FieldsUndone(CONDITION_FIELDS, r.condition.value); }
    if r.redirect.Some? { FieldsUndone(REDIRECT_FIELDS, r.redirect.value); }
  }

  /** The value that a part denotes, its last occurrence, is the part decoded. */
  predicate PartShown(names: set<string>, p: Option<Fields>, last: Doc) {
    p.Some? && WithoutNulls(EncodeFields(names, p.value)) == Meaning(last)
  }

  lemma PartReadBack(names: set<string>, ds: seq<Doc>)
    requires ds != [] && DecodeParts(names, ds, None).Some?
    ensures var last := ds[|ds| - 1];
            PartShown(names, DecodeParts(names, ds, None).value, last) <==>
              CanonicalPart(names, Meaning(last)) && SetAgain(names, ds)
  {
    var p, last := DecodeParts(names, ds, None).value, ds[|ds| - 1];
    var f := PartFinal(names, ds);
    if p.Some? {
      FieldsUndone(names, p.value);
      var m, shown := MeaningOf(last.members), map k | k in names && k in p.value :: Str(p.value[k]);
      forall k | k in f.Keys && k !in m ensures k in shown { assert k in p.value; }
      if CanonicalPart(names, Meaning(last)) && SetAgain(names, ds) {
        assert p.value == StringFields(names, m);
        assert shown == m;
      }
    }
  }

  /** In object `m` the member `name` is exactly the encoded part, or is missing when the part is. */
  predicate PartIn(names: set<string>, p: Option<Fields>, m: map<string, Json>, name: string) {
    && (name in m <==> p.Some?)
    && (p.Some? ==> name in m && m[name] == WithoutNulls(EncodeFields(names, p.value)))
  }

  lemma PartInRule(names: set<string>, ms: seq<Member>, name: string)
    requires DecodeParts(names, Occurrences(ms, name), None).Some?
    ensures var ds, m := Occurrences(ms, name), MeaningOf(ms);
            PartIn(names, DecodeParts(names, ds, None).value, m, name) <==>
              (name in m ==> CanonicalPart(names, m[name])) && SetAgain(names, ds)
  {
    var ds := Occurrences(ms, name);
    LastOccurrence(ms, name);
    if ds != [] { PartReadBack(names, ds); }
  }

  /** A cleaned rule is a given object exactly when its parts are. */
  lemma RuleShown(r: RoutingRule, m: map<string, Json>)
    ensures CleanRule(r).members == m <==>
              && (forall k | k in m :: k == CONDITION || k == REDIRECT)
              && PartIn(CONDITION_FIELDS, r.condition, m, CONDITION) && PartIn(REDIRECT_FIELDS, r.redirect, m, REDIRECT)
  {
    CleanRuleShape(r);
    var c := CleanRule(r).members;
    if && (forall k | k in m :: k == CONDITION || k == REDIRECT)
       && PartIn(CONDITION_FIELDS, r.condition, m, CONDITION) && PartIn(REDIRECT_FIELDS, r.redirect, m, REDIRECT)
    {
      assert c.Keys == m.Keys;
      assert c == m;
    }
  }

  lemma RuleReadBack(ms: seq<Member>)
    requires DecodeRule(ms, NO_RULE).Some?
    ensures CleanRule(DecodeRule(ms, NO_RULE).value) == Meaning(ObjDoc(ms)) <==>
              CanonicalRule(Meaning(ObjDoc(ms))) && RuleCovered(ObjDoc(ms))
  {
    RuleByParts(ms, NO_RULE);
    PartInRule(CONDITION_FIELDS, ms, CONDITION);
    PartInRule(REDIRECT_FIELDS, ms, REDIRECT);
    RuleShown(DecodeRule(ms, NO_RULE).value, MeaningOf(ms));
  }

  function Meanings(es: seq<Doc>): seq<Json> { seq(|es|, i requires 0 <= i < |es| => Meaning(es[i])) }

  lemma SameHeadAndTail<T>(a: T, x: seq<T>, b: T, y: seq<T>)
    ensures [a] + x == [b] + y <==> a == b && x == y
  {
    assert ([a] + x)[0] == a && ([a] + x)[1..] == x;
    assert ([b] + y)[0] == b && ([b] + y)[1..] == y;
  }

  /** An element that is read back as it stands. */
  predicate ReadsBack(e: Doc) { CanonicalRule(Meaning(e)) && RuleCovered(e) }

  predicate AllReadBack(es: seq<Doc>) { es == [] || (ReadsBack(es[0]) && AllReadBack(es[1..])) }

  lemma {:induction false} ElementsReadBack(es: seq<Doc>)
    requires DecodeElements(es).Some?
    ensures |DecodeElements(es).value| <= |es|
    ensures CleanRules(DecodeElements(es).value) == Meanings(es) <==> AllReadBack(es)
  {
    if es != [] {
      ElementsReadBack(es[1..]);
      assert Meanings(es) == [Meaning(es[0])] + Meanings(es[1..]);
      var rs := DecodeElements(es[1..]).value;
      if es[0].ObjDoc? {
        RuleReadBack(es[0].members);
        var r := DecodeRule(es[0].members, NO_RULE).value;
        assert CleanRules([r] + rs) == [CleanRule(r)] + CleanRules(rs);
        SameHeadAndTail(CleanRule(r), CleanRules(rs), Meaning(es[0]), Meanings(es[1..]));
      } else {
        assert |CleanRules(rs)| < |Meanings(es)|;
      }
    }
  }

  lemma {:induction false} AllReadBackEach(es: seq<Doc>)
    ensures AllReadBack(es) <==> forall e | e in es :: ReadsBack(e)
  {
    if es != [] {
      AllReadBackEach(es[1..]);
      assert es == [es[0]] + es[1..];
    }
  }

  /**
    Write rules, read them back: the text read equals the normal form of the text written exactly
    when the array is non-empty and uses known, non-null fields only, and repeated parts lose nothing.
   */
  lemma RulesReadBack(fc: Strconv, text: string)
    requires Denotes(fc, text) && RulesOf(fc, text).Some?
    ensures var rs := RulesOf(fc, text).value;
            CanonicalRules(Parse(fc, text).value) && Covered(ParseDoc(fc, text).value) <==>
              rs != [] && RulesText(fc, rs) == Normalize(fc, text).text
  {
    EmptyDenotesNothing(fc);
    var d, rs := ParseDoc(fc, text).value, RulesOf(fc, text).value;
    PrintUndone(fc, Meaning(d));
    PrintUndone(fc, Arr(CleanRules(rs)));
    if d.ArrDoc? {
      ElementsReadBack(d.elements);
      AllReadBackEach(d.elements);
      assert Meaning(d).elements == Meanings(d.elements);
      MeaningsCanonical(d.elements);
    }
  }

  lemma MeaningsCanonical(es: seq<Doc>)
    ensures (forall e | e in Meanings(es) :: CanonicalRule(e)) <==> forall e | e in es :: CanonicalRule(Meaning(e))
  {
    if forall e | e in Meanings(es) :: CanonicalRule(e) {
      forall e | e in es ensures CanonicalRule(Meaning(e)) {
        var i :| 0 <= i < |es| && es[i] == e;
        assert Meanings(es)[i] in Meanings(es);
      }
    } else {
      var e :| e in Meanings(es) && !CanonicalRule(e);
      var i :| 0 <= i < |es| && Meanings(es)[i] == e;
      assert es[i] in es;
    }
  }

  // ---------------------------------------------------------------- writing the normal form instead

  /** A part has a string or null in every known field, or is null itself. */
  predicate PartFits(names: set<string>, j: Json) {
    j == Nil || (j.Obj? && forall k | k in names && k in j.members :: j.members[k].Str? || j.members[k] == Nil)
  }

  predicate RuleFits(j: Json) {
    || j == Nil
    || (&& j.Obj?
        && (CONDITION in j.members ==> PartFits(CONDITION_FIELDS, j.members[CONDITION]))
        && (REDIRECT in j.members ==> PartFits(REDIRECT_FIELDS, j.members[REDIRECT])))
  }

  predicate AllFit(js: seq<Json>) { js == [] || (RuleFits(js[0]) && AllFit(js[1..])) }

  /** Values of the right types where routing rules look for them. */
  predicate RulesFit(j: Json) { j == Nil || (j.Arr? && AllFit(j.elements)) }

  /** The only occurrence of a part in a normal form. */
  lemma SortedPart(j: Json, name: string)
    requires j.Obj?
    ensures Occurrences(Sorted(j).members, name) == if name in j.members then [Sorted(j.members[name])] else []
  {
    SortedKeysAscend(j.members.Keys);
    SortedOnce(j, SortedKeys(j.members.Keys), name);
  }

  lemma {:induction false} SortedFieldsDecode(names: set<string>, j: Json, ks: seq<string>, f: Fields)
    requires j.Obj? && forall k | k in ks :: k in j.members
    requires forall k | k in names && k in j.members :: j.members[k].Str? || j.members[k] == Nil
    ensures DecodeFields(names, SortedMembers(j, ks), f).Some?
    decreases |ks|
  {
    if ks != [] {
      var k := ks[0];
      assert SortedMembers(j, ks)[1..] == SortedMembers(j, ks[1..]);
      var step := if k !in names then f else if j.members[k].Str? then f[k := j.members[k].s] else f - {k};
      SortedFieldsDecode(names, j, ks[1..], step);
    }
  }

  /** A part of a normal form sets the string fields it has and nothing else. */
  lemma SortedPartDecodes(names: set<string>, j: Json)
    ensures var p := DecodeParts(names, [Sorted(j)], None);
            && (p.Some? <==> PartFits(names, j))
            && (p.Some? ==> p.value == if j == Nil then None else Some(StringFields(names, j.members)))
  {
    assert DecodeParts(names, [Sorted(j)], None) == DecodePart(names, Sorted(j), None) by {
      assert [Sorted(j)][1..] == [];
    }
    if j.Obj? {
      SortedMeans(j);
      FieldsDecoded(names, Sorted(j).members, map[]);
      assert Overlay(names, j.members, map[]) == StringFields(names, j.members);
      if PartFits(names, j) { SortedFieldsDecode(names, j, SortedKeys(j.members.Keys), map[]); }
    }
  }

  /** The normal form of a part decodes to the same exactly when repeated occurrences lose nothing. */
  lemma SamePart(names: set<string>, ds: seq<Doc>)
    requires ds != [] && DecodeParts(names, ds, None).Some?
    ensures DecodeParts(names, [Sorted(Meaning(ds[|ds| - 1]))], None).Some?
    ensures DecodeParts(names, [Sorted(Meaning(ds[|ds| - 1]))], None) == DecodeParts(names, ds, None) <==>
              SetAgain(names, ds)
  {
    var last := ds[|ds| - 1];
    var f := PartFinal(names, ds);
    SortedPartDecodes(names, Meaning(last));
    if last.ObjDoc? { NothingLeft(names, MeaningOf(last.members), f); }
  }

  lemma NothingLeft(names: set<string>, m: map<string, Json>, f: Fields)
    ensures Overlay(names, m, f) == StringFields(names, m) <==> f.Keys <= m.Keys
  {
    if f.Keys <= m.Keys {
      assert f - m.Keys == map[];
    } else {
      var k :| k in f && k !in m;
      assert k in Overlay(names, m, f) && k !in StringFields(names, m);
    }
  }

  lemma SameDecodedRule(ms: seq<Member>)
    requires DecodeRule(ms, NO_RULE).Some?
    ensures var n := DecodeRule(Sorted(Meaning(ObjDoc(ms))).members, NO_RULE);
            n.Some? && (n == DecodeRule(ms, NO_RULE) <==> RuleCovered(ObjDoc(ms)))
  {
    var j := Meaning(ObjDoc(ms));
    var cs, ds := Occurrences(ms, CONDITION), Occurrences(ms, REDIRECT);
    RuleByParts(ms, NO_RULE);
    RuleByParts(Sorted(j).members, NO_RULE);
    LastOccurrence(ms, CONDITION);
    LastOccurrence(ms, REDIRECT);
    SortedPart(j, CONDITION);
    SortedPart(j, REDIRECT);
    if cs != [] { SamePart(CONDITION_FIELDS, cs); }
    if ds != [] { SamePart(REDIRECT_FIELDS, ds); }
  }

  predicate AllCovered(es: seq<Doc>) { es == [] || (RuleCovered(es[0]) && AllCovered(es[1..])) }

  lemma {:induction false} SameElements(es: seq<Doc>)
    requires DecodeElements(es).Some?
    ensures var n := DecodeElements(Sorted(Arr(Meanings(es))).elements);
            && n.Some? && |n.value| == |DecodeElements(es).value|
            && (n == DecodeElements(es) <==> AllCovered(es))
  {
    var ns := Sorted(Arr(Meanings(es))).elements;
    if es != [] {
      SameElements(es[1..]);
      assert Meanings(es)[1..] == Meanings(es[1..]);
      assert ns[1..] == Sorted(Arr(Meanings(es[1..]))).elements;
      assert ns[0] == Sorted(Meaning(es[0]));
      if es[0].ObjDoc? {
        SameDecodedRule(es[0].members);
        var r, q := DecodeRule(es[0].members, NO_RULE).value, DecodeRule(ns[0].members, NO_RULE).value;
        var rs, qs := DecodeElements(es[1..]).value, DecodeElements(ns[1..]).value;
        SameHeadAndTail(q, qs, r, rs);
      }
    }
  }

  lemma {:induction false} AllCoveredEach(es: seq<Doc>)
    ensures AllCovered(es) <==> forall e | e in es :: RuleCovered(e)
  {
    if es != [] {
      AllCoveredEach(es[1..]);
      assert es == [es[0]] + es[1..];
    }
  }

  lemma SortedRuleDecodes(j: Json)
    requires j.Obj?
    ensures DecodeRule(Sorted(j).members, NO_RULE).Some? <==> RuleFits(j)
  {
    RuleByParts(Sorted(j).members, NO_RULE);
    SortedPart(j, CONDITION);
    SortedPart(j, REDIRECT);
    if CONDITION in j.members { SortedPartDecodes(CONDITION_FIELDS, j.members[CONDITION]); }
    if REDIRECT in j.members { SortedPartDecodes(REDIRECT_FIELDS, j.members[REDIRECT]); }
  }

  lemma {:induction false} SortedElementsDecode(js: seq<Json>)
    ensures DecodeElements(Sorted(Arr(js)).elements).Some? <==> AllFit(js)
  {
    if js != [] {
      assert Sorted(Arr(js)).elements[1..] == Sorted(Arr(js[1..])).elements;
      SortedElementsDecode(js[1..]);
      if js[0].Obj? { SortedRuleDecodes(js[0]); }
    }
  }

  /** A normal form decodes exactly when its values have the right types. */
  lemma NormalFormDecodes(fc: Strconv, text: string)
    requires Denotes(fc, text)
    ensures RulesOf(fc, Normalize(fc, text).text).Some? <==> RulesFit(Parse(fc, text).value)
  {
    EmptyDenotesNothing(fc);
    var j := Parse(fc, text).value;
    PrintUndone(fc, j);
    if j.Arr? { SortedElementsDecode(j.elements); }
  }

  /**
    A text and its normal form ask for the same rules exactly when repeated parts lose nothing, or
    neither decodes.  If the text decodes then so does its normal form.
   */
  lemma NormalFormSameRules(fc: Strconv, text: string)
    requires Denotes(fc, text)
    ensures RulesOf(fc, text).Some? ==> RulesOf(fc, Normalize(fc, text).text).Some?
    ensures RulesOf(fc, Normalize(fc, text).text) == RulesOf(fc, text) <==>
              if RulesOf(fc, text).Some? then Covered(ParseDoc(fc, text).value)
              else !RulesFit(Parse(fc, text).value)
  {
    EmptyDenotesNothing(fc);
    NormalFormDecodes(fc, text);
    var d := ParseDoc(fc, text).value;
    PrintUndone(fc, Meaning(d));
    if d.ArrDoc? && RulesOf(fc, text).Some? {
      SameElements(d.elements);
      AllCoveredEach(d.elements);
      assert Meaning(d) == Arr(Meanings(d.elements));
    }
  }

  /** In a normal form nothing is repeated, so nothing gets lost. */
  lemma NormalFormCovered(fc: Strconv, text: string)
    requires Denotes(fc, text)
    ensures Denotes(fc, Normalize(fc, text).text) && Covered(ParseDoc(fc, Normalize(fc, text).text).value)
    ensures Parse(fc, Normalize(fc, text).text) == Parse(fc, text)
  {
    EmptyDenotesNothing(fc);
    var j := Parse(fc, text).value;
    PrintUndone(fc, j);
    if j.Arr? {
      forall e | e in Sorted(j).elements ensures RuleCovered(e) {
        var i :| 0 <= i < |j.elements| && e == Sorted(j.elements[i]);
        if j.elements[i].Obj? {
          SortedPart(j.elements[i], CONDITION);
          SortedPart(j.elements[i], REDIRECT);
        }
      }
    }
  }

  lemma {:induction false} CanonicalFits(js: seq<Json>)
    requires forall j | j in js :: CanonicalRule(j)
    ensures AllFit(js)
  {
    if js != [] {
      assert CanonicalRule(js[0]);
      assert forall j | j in js[1..] :: j in js;
      CanonicalFits(js[1..]);
    }
  }

  /** The text read back for stored rules can be written again. */
  lemma RulesTextDecodes(fc: Strconv, rs: seq<RoutingRule>)
    requires rs != []
    ensures RulesOf(fc, RulesText(fc, rs)).Some?
  {
    PrintUndone(fc, Arr(CleanRules(rs)));
    forall e | e in CleanRules(rs) ensures CanonicalRule(e) {
      var i :| 0 <= i < |rs| && e == CleanRule(rs[i]);
      CleanRuleIsCanonical(rs[i]);
    }
    CanonicalFits(CleanRules(rs));
    SortedElementsDecode(CleanRules(rs));
  }

  // ---------------------------------------------------------------- from rules to text and back

  function KnownPart(names: set<string>, part: Option<Fields>): Option<Fields> {
    match part
    case None => None
    case Some(f) => Some(map k | k in f && k in names :: f[k])
  }

  function KnownRule(r: RoutingRule): RoutingRule {
    RoutingRule(KnownPart(CONDITION_FIELDS, r.condition), KnownPart(REDIRECT_FIELDS, r.redirect))
  }

  lemma PartReturns(names: set<string>, f: Fields)
    ensures DecodeParts(names, [Sorted(WithoutNulls(EncodeFields(names, f)))], None) ==
            Some(KnownPart(names, Some(f)))
  {
    FieldsUndone(names, f);
    var j := WithoutNulls(EncodeFields(names, f));
    SortedPartDecodes(names, j);
    assert StringFields(names, j.members) == map k | k in f && k in names :: f[k];
  }

  lemma RuleReturns(r: RoutingRule)
    ensures DecodeRule(Sorted(CleanRule(r)).members, NO_RULE) == Some(KnownRule(r))
  {
    var j := CleanRule(r);
    CleanRuleShape(r);
    RuleByParts(Sorted(j).members, NO_RULE);
    SortedPart(j, CONDITION);
    SortedPart(j, REDIRECT);
    if r.condition.Some? { PartReturns(CONDITION_FIELDS, r.condition.value); }
    if r.redirect.Some? { PartReturns(REDIRECT_FIELDS, r.redirect.value); }
  }

  function KnownRules(rs: seq<RoutingRule>): seq<RoutingRule> {
    if rs == [] then [] else [KnownRule(rs[0])] + KnownRules(rs[1..])
  }

  lemma {:induction false} ElementsReturn(rs: seq<RoutingRule>)
    ensures DecodeElements(Sorted(Arr(CleanRules(rs))).elements) == Some(KnownRules(rs))
  {
    if rs != [] {
      ElementsReturn(rs[1..]);
      RuleReturns(rs[0]);
      SortedRest(rs);
    }
  }

  lemma SortedRest(rs: seq<RoutingRule>)
    requires rs != []
    ensures var es := Sorted(Arr(CleanRules(rs))).elements;
            && es != [] && es[0] == Sorted(CleanRule(rs[0]))
            && es[1..] == Sorted(Arr(CleanRules(rs[1..]))).elements
  {
    assert CleanRules(rs)[1..] == CleanRules(rs[1..]);
  }

  /** The fields of the SDK's two structs. */
  predicate SdkRule(r: RoutingRule) {
    && (r.condition.Some? ==> r.condition.value.Keys <= {"HttpErrorCodeReturnedEquals", "KeyPrefixEquals"})
    && (r.redirect.Some? ==>
          r.redirect.value.Keys <=
            {"HostName", "HttpRedirectCode", "Protocol", "ReplaceKeyPrefixWith", "ReplaceKeyWith"})
  }

  lemma KnownIsSdk(r: RoutingRule)
    ensures KnownRule(r) == r <==> SdkRule(r)
  {
    if r.condition.Some? {
      var f := r.condition.value;
      if f.Keys <= CONDITION_FIELDS {
        assert (map k | k in f && k in CONDITION_FIELDS :: f[k]) == f;
      } else {
        var k :| k in f && k !in CONDITION_FIELDS;
        assert k !in KnownPart(CONDITION_FIELDS, r.condition).value;
      }
    }
    if r.redirect.Some? {
      var f := r.redirect.value;
      if f.Keys <= REDIRECT_FIELDS {
        assert (map k | k in f && k in REDIRECT_FIELDS :: f[k]) == f;
      } else {
        var k :| k in f && k !in REDIRECT_FIELDS;
        assert k !in KnownPart(REDIRECT_FIELDS, r.redirect).value;
      }
    }
  }

  lemma {:induction false} KnownRulesAreSdk(rs: seq<RoutingRule>)
    ensures KnownRules(rs) == rs <==> forall r | r in rs :: SdkRule(r)
  {
    if rs != [] {
      KnownRulesAreSdk(rs[1..]);
      KnownIsSdk(rs[0]);
      assert rs == [rs[0]] + rs[1..];
      SameHeadAndTail(KnownRule(rs[0]), KnownRules(rs[1..]), rs[0], rs[1..]);
    }
  }

  /** Decoding the text of any list of rules gives the list back exactly when it uses the SDK's fields only. */
  lemma RulesUndone(fc: Strconv, rs: seq<RoutingRule>)
    ensures RulesOf(fc, RulesText(fc, rs)) == Some(rs) <==> forall r | r in rs :: SdkRule(r)
  {
    PrintUndone(fc, if rs == [] then Nil else Arr(CleanRules(rs)));
    ElementsReturn(rs);
    KnownRulesAreSdk(rs);
  }

  lemma OneField(names: set<string>, k: string, s: string)
    requires k in names
    ensures DecodeFields(names, [Member(k, StrDoc(s))], map[]) == Some(map[k := s])
  {
    var ms := [Member(k, StrDoc(s))];
    var f: Fields := map[];
    assert ms[1..] == [] && f[k := s] == map[k := s];
  }

  function OnePart(key: string, value: string): Doc { ObjDoc([Member(key, StrDoc(value))]) }

  function OneRule(key: string, value: string, target: string, to: string): seq<Member> {
    [Member("Condition", OnePart(key, value)), Member("Redirect", OnePart(target, to))]
  }

  lemma OneRuleDecoded(key: string, value: string, target: string, to: string)
    requires key in CONDITION_FIELDS && target in REDIRECT_FIELDS
    ensures DecodeRules(ArrDoc([ObjDoc(OneRule(key, value, target, to))])) ==
            Some([RoutingRule(Some(map[key := value]), Some(map[target := to]))])
  {
    NamesDiffer();
    OneField(CONDITION_FIELDS, key, value);
    OneField(REDIRECT_FIELDS, target, to);
    var ms := OneRule(key, value, target, to);
    var r := RoutingRule(Some(map[key := value]), None);
    assert ms[1..] == [ms[1]] && ms[1..][1..] == [];
    assert DecodeRule(ms[1..], r) == Some(r.(redirect := Some(map[target := to])));
    assert DecodeRule(ms, NO_RULE) == Some(r.(redirect := Some(map[target := to])));
    OneElement(ms);
  }

  lemma OneElement(ms: seq<Member>)
    requires DecodeRule(ms, NO_RULE).Some?
    ensures DecodeRules(ArrDoc([ObjDoc(ms)])) == Some([DecodeRule(ms, NO_RULE).value])
  {
    var es := [ObjDoc(ms)];
    assert es[1..] == [] && DecodeElements(es[1..]) == Some([]);
    var r := DecodeRule(ms, NO_RULE).value;
    assert [r] + [] == [r];
  }

  /** A rule with one condition and one redirect field, however its text is laid out and spelled. */
  lemma OneRuleRead(fc: Strconv, text: string, key: string, value: string, target: string, to: string)
    requires key in {"HttpErrorCodeReturnedEquals", "KeyPrefixEquals"}
    requires target in {"HostName", "HttpRedirectCode", "Protocol", "ReplaceKeyPrefixWith", "ReplaceKeyWith"}
    requires Written(fc, text, [
               LBracket, LBrace, Text("Condition"), Colon, LBrace, Text(key), Colon, Text(value), RBrace, Comma,
               Text("Redirect"), Colon, LBrace, Text(target), Colon, Text(to), RBrace, RBrace, RBracket])
    ensures RulesOf(fc, text) == Some([RoutingRule(Some(map[key := value]), Some(map[target := to]))])
  {
    var d := ArrDoc([ObjDoc(OneRule(key, value, target, to))]);
    OneRuleTokens(key, value, target, to);
    ParsesWhatIsWritten(fc, text, d);
    OneRuleDecoded(key, value, target, to);
    EmptyDenotesNothing(fc);
  }

  lemma PartTokens(key: string, value: string)
    ensures Tokens(OnePart(key, value)) == [LBrace, Text(key), Colon, Text(value), RBrace]
  {
    var ms := [Member(key, StrDoc(value))];
    assert MemberTokens(ms) == [Text(key), Colon, Text(value)];
  }

  lemma OneRuleTokens(key: string, value: string, target: string, to: string)
    ensures Tokens(ArrDoc([ObjDoc(OneRule(key, value, target, to))])) == [
              LBracket, LBrace, Text("Condition"), Colon, LBrace, Text(key), Colon, Text(value), RBrace, Comma,
              Text("Redirect"), Colon, LBrace, Text(target), Colon, Text(to), RBrace, RBrace, RBracket]
  {
    var ms := OneRule(key, value, target, to);
    PartTokens(key, value);
    PartTokens(target, to);
    assert ms[1..] == [Member("Redirect", OnePart(target, to))];
    assert MemberTokens(ms[1..]) == [Text("Redirect"), Colon, LBrace, Text(target), Colon, Text(to), RBrace];
    assert ElementTokens([ObjDoc(ms)]) == [LBrace] + MemberTokens(ms) + [RBrace];
  }

  // ---------------------------------------------------------------- a repeated part

  const FIRST := [Member("HostName", StrDoc("a"))]
  const SECOND := [Member("ReplaceKeyWith", StrDoc("b"))]
  const TWICE := [Member(REDIRECT, ObjDoc(FIRST)), Member(REDIRECT, ObjDoc(SECOND))]

  /** `[{"Redirect":{"HostName":"a"},"Redirect":{"ReplaceKeyWith":"b"}}]` */
  const REPEATED := ArrDoc([ObjDoc(TWICE)])

  lemma RepeatedMeans()
    ensures MeaningOf(SECOND) == map["ReplaceKeyWith" := Str("b")]
    ensures MeaningOf(TWICE) == map[REDIRECT := Obj(MeaningOf(SECOND))]
    ensures Occurrences(TWICE, REDIRECT) == [ObjDoc(FIRST), ObjDoc(SECOND)] && Occurrences(TWICE, CONDITION) == []
  {
    NamesDiffer();
    var rest := TWICE[1..];
    assert rest[1..] == [] && SECOND[1..] == [];
    assert MeaningOf(rest) == map[REDIRECT := Obj(MeaningOf(SECOND))];
    assert Occurrences(rest, REDIRECT) == [ObjDoc(SECOND)] && Occurrences(rest, CONDITION) == [];
  }

  const MERGED: Fields := map["HostName" := "a", "ReplaceKeyWith" := "b"]

  lemma RepeatedDecodes()
    ensures DecodeRule(TWICE, NO_RULE) == Some(RoutingRule(None, Some(MERGED)))
  {
    RepeatedMeans();
    RuleByParts(TWICE, NO_RULE);
    var ds: seq<Doc> := [ObjDoc(FIRST), ObjDoc(SECOND)];
    var f: Fields := map["HostName" := "a"];
    assert FIRST[1..] == [] && SECOND[1..] == [] && ds[1..] == [ds[1]] && ds[1..][1..] == [];
    assert DecodePart(REDIRECT_FIELDS, ds[0], None) == Some(Some(f));
    assert DecodePart(REDIRECT_FIELDS, ds[1], Some(f)) == Some(Some(MERGED));
    assert DecodeParts(REDIRECT_FIELDS, ds[1..], Some(f)) == Some(Some(MERGED));
    assert DecodeParts(REDIRECT_FIELDS, ds, None) == Some(Some(MERGED));
  }

  lemma RepeatedLoses()
    ensures !SetAgain(REDIRECT_FIELDS, Occurrences(TWICE, REDIRECT))
  {
    RepeatedMeans();
    var ds: seq<Doc> := [ObjDoc(FIRST), ObjDoc(SECOND)];
    var init := ds[..1];
    assert init == [ObjDoc(FIRST)] && init[1..] == [] && FIRST[1..] == [];
    assert MeaningOf(FIRST) == map["HostName" := Str("a")];
    assert "HostName" in StringFields(REDIRECT_FIELDS, MeaningOf(FIRST));
    assert "HostName" in LeftSet(REDIRECT_FIELDS, init, {});
    assert "HostName"[0] != "ReplaceKeyWith"[0];
  }

  lemma RulesOfText(fc: Strconv, d: Doc)
    ensures var text := Render(fc, Tokens(d)); ParseDoc(fc, text) == Some(d) && RulesOf(fc, text) == DecodeRules(d)
  {
    DocUndone(fc, d);
    EmptyDenotesNothing(fc);
  }

  lemma RepeatedRules()
    ensures DecodeRules(REPEATED) == Some([RoutingRule(None, Some(MERGED))])
  {
    RepeatedDecodes();
    var es := [ObjDoc(TWICE)];
    assert DecodeElements(es[1..]) == Some([]);
    var rs := [RoutingRule(None, Some(MERGED))];
    assert rs + [] == rs;
    assert DecodeElements(es) == Some(rs);
  }

  lemma RepeatedIsCanonical()
    ensures CanonicalRules(Meaning(REPEATED))
  {
    RepeatedMeans();
    NamesDiffer();
    assert Meaning(REPEATED).elements == [Obj(MeaningOf(TWICE))];
  }

  /** Known, non-null fields only, and yet the rules sent are not those that the normal form asks for. */
  lemma RepeatedPartIsMerged(fc: Strconv)
    ensures var text := Render(fc, Tokens(REPEATED));
            && ParseDoc(fc, text) == Some(REPEATED) && CanonicalRules(Parse(fc, text).value) && !Covered(REPEATED)
            && RulesOf(fc, text) == Some([RoutingRule(None, Some(MERGED))])
            && RulesOf(fc, Normalize(fc, text).text) != RulesOf(fc, text)
  {
    var text := Render(fc, Tokens(REPEATED));
    var es := [ObjDoc(TWICE)];
    RulesOfText(fc, REPEATED);
    RepeatedRules();
    RepeatedLoses();
    RepeatedIsCanonical();
    assert es[0] in REPEATED.elements && !RuleCovered(es[0]);
    NormalFormSameRules(fc, text);
  }
}
