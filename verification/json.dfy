/**
  JSON in two shapes.  A `Doc` is what a text says, members in text order and repeated names
  included; a `Json` is the value it denotes, as Go's `interface{}` holds it: an object is a map,
  so a repeated name keeps its last value and order is lost (section 4 of RFC 8259).  Here are the
  parser behind `json.Unmarshal` and the key-sorting printer behind `json.Marshal`, on tokens.
 */
module Json {
  import opened Wrappers
  import opened JsonLexer

  datatype Json =
    | Nil
    | Bool(b: bool)
    | Num(f: Float)
    | Str(s: string)
    | Arr(elements: seq<Json>)
    | Obj(members: map<string, Json>)

  datatype Doc =
    | NilDoc
    | BoolDoc(b: bool)
    | NumDoc(f: Float)
    | StrDoc(s: string)
    | ArrDoc(elements: seq<Doc>)
    | ObjDoc(members: seq<Member>)

  datatype Member = Member(name: string, value: Doc)

  // ---------------------------------------------------------------- what a text denotes

  function Meaning(d: Doc): Json {
    match d
    case NilDoc => Nil
    case BoolDoc(b) => Bool(b)
    case NumDoc(f) => Num(f)
    case StrDoc(s) => Str(s)
    case ArrDoc(es) => Arr(seq(|es|, i requires 0 <= i < |es| => Meaning(es[i])))
    case ObjDoc(ms) => Obj(MeaningOf(ms))
  }

  /** The last value of each name counts. */
  function MeaningOf(ms: seq<Member>): map<string, Json> {
    if ms == [] then map[]
    else map[ms[0].name := Meaning(ms[0].value)] + MeaningOf(ms[1..])
  }

  /** The values given for a name, in text order. */
  function Occurrences(ms: seq<Member>, name: string): seq<Doc> {
    if ms == [] then []
    else if ms[0].name == name then [ms[0].value] + Occurrences(ms[1..], name)
    else Occurrences(ms[1..], name)
  }

  lemma {:induction false} LastOccurrence(ms: seq<Member>, name: string)
    ensures var ds := Occurrences(ms, name);
            && (name in MeaningOf(ms) <==> ds != [])
            && (ds != [] ==> MeaningOf(ms)[name] == Meaning(ds[|ds| - 1]))
  {
    if ms != [] {
      LastOccurrence(ms[1..], name);
    }
  }

  // ---------------------------------------------------------------- sorted names

  /** Go's order on strings. */
  predicate AtMost(a: string, b: string) {
    a == "" || (b != "" && (a[0] < b[0] || (a[0] == b[0] && AtMost(a[1..], b[1..]))))
  }

  /** One name comes before another if it is a prefix, or smaller at the first difference. */
  lemma {:induction false} AtMostMeans(a: string, b: string)
    ensures AtMost(a, b) <==> a <= b || exists i | 0 <= i < |a| && i < |b| :: a[..i] == b[..i] && a[i] < b[i]
  {
    if a != "" && b != "" && a[0] == b[0] {
      AtMostMeans(a[1..], b[1..]);
      assert a == [a[0]] + a[1..] && b == [b[0]] + b[1..];
      assert a <= b <==> a[1..] <= b[1..];
      if i :| 0 <= i < |a| && i < |b| && a[..i] == b[..i] && a[i] < b[i] {
        assert a[1..][..i - 1] == a[..i][1..] && b[1..][..i - 1] == b[..i][1..];
        assert a[1..][i - 1] < b[1..][i - 1];
      }
      if i :| 0 <= i < |a[1..]| && i < |b[1..]| && a[1..][..i] == b[1..][..i] && a[1..][i] < b[1..][i] {
        assert a[..i + 1] == [a[0]] + a[1..][..i] && b[..i + 1] == [b[0]] + b[1..][..i];
      }
    } else if a != "" && b != "" {
      if a[0] < b[0] { assert a[..0] == b[..0]; }
      forall i | 0 < i < |a| && i < |b| ensures a[..i] != b[..i] {
        assert a[..i][0] == a[0] && b[..i][0] == b[0];
      }
    }
  }

  lemma {:induction false} AtMostTotal(a: string, b: string)
    ensures AtMost(a, b) || AtMost(b, a)
    ensures AtMost(a, b) && AtMost(b, a) ==> a == b
  {
    if a != "" && b != "" && a[0] == b[0] {
      AtMostTotal(a[1..], b[1..]);
      assert [a[0]] + a[1..] == a && [b[0]] + b[1..] == b;
    }
  }

  lemma {:induction false} AtMostTransitive(a: string, b: string, c: string)
    requires AtMost(a, b) && AtMost(b, c)
    ensures AtMost(a, c)
  {
    if a != "" && a[0] == b[0] == c[0] {
      AtMostTransitive(a[1..], b[1..], c[1..]);
    }
  }

  predicate First(k: string, ks: set<string>) {
    k in ks && forall j | j in ks :: AtMost(k, j)
  }

  lemma {:induction false} FirstExists(ks: set<string>)
    requires ks != {}
    ensures exists k :: First(k, ks)
  {
    var k :| k in ks;
    var rest := ks - {k};
    AtMostTotal(k, k);
    if rest != {} {
      FirstExists(rest);
      var m :| First(m, rest);
      AtMostTotal(k, m);
      if AtMost(k, m) {
        forall j | j in ks ensures AtMost(k, j) {
          if j != k { AtMostTransitive(k, m, j); }
        }
        assert First(k, ks);
      } else {
        assert First(m, ks);
      }
    } else {
      assert ks == {k};
      assert First(k, ks);
    }
  }

  lemma FirstUnique(ks: set<string>)
    ensures forall a, b | First(a, ks) && First(b, ks) :: a == b
  {
    forall a, b | First(a, ks) && First(b, ks) ensures a == b {
      AtMostTotal(a, b);
    }
  }

  function FirstOf(ks: set<string>): (k: string)
    requires ks != {}
    ensures First(k, ks)
  {
    FirstExists(ks);
    FirstUnique(ks);
    var k :| First(k, ks);
    k
  }

  function SortedKeys(ks: set<string>): (s: seq<string>)
    ensures forall k :: k in s <==> k in ks
  {
    if ks == {} then [] else [FirstOf(ks)] + SortedKeys(ks - {FirstOf(ks)})
  }

  predicate Ascending(s: seq<string>) {
    forall i, j | 0 <= i < j < |s| :: AtMost(s[i], s[j]) && s[i] != s[j]
  }

  lemma {:induction false} SortedKeysAscend(ks: set<string>)
    ensures Ascending(SortedKeys(ks))
  {
    if ks != {} {
      var f := FirstOf(ks);
      var rest := SortedKeys(ks - {f});
      SortedKeysAscend(ks - {f});
      forall j | 0 <= j < |rest| ensures AtMost(f, rest[j]) && f != rest[j] {
        assert rest[j] in rest;
        assert rest[j] in ks - {f};
        assert First(f, ks) && rest[j] in ks;
      }
      assert Ascending([f] + rest);
    }
  }

  // ---------------------------------------------------------------- printing

  function Tokens(d: Doc): seq<Token> {
    match d
    case NilDoc => [Null]
    case BoolDoc(b) => [if b then True else False]
    case NumDoc(f) => [Number(f)]
    case StrDoc(s) => [Text(s)]
    case ArrDoc(es) => [LBracket] + ElementTokens(es) + [RBracket]
    case ObjDoc(ms) => [LBrace] + MemberTokens(ms) + [RBrace]
  }

  function ElementTokens(es: seq<Doc>): seq<Token> {
    if es == [] then []
    else if |es| == 1 then Tokens(es[0])
    else Tokens(es[0]) + [Comma] + ElementTokens(es[1..])
  }

  function MemberTokens(ms: seq<Member>): seq<Token> {
    if ms == [] then []
    else
      [Text(ms[0].name), Colon] + Tokens(ms[0].value) +
      if |ms| == 1 then [] else [Comma] + MemberTokens(ms[1..])
  }

  /** The text tree of a value with names in ascending order. */
  function Sorted(j: Json): Doc
    decreases j, 1
  {
    match j
    case Nil => NilDoc
    case Bool(b) => BoolDoc(b)
    case Num(f) => NumDoc(f)
    case Str(s) => StrDoc(s)
    case Arr(es) => ArrDoc(seq(|es|, i requires 0 <= i < |es| => Sorted(es[i])))
    case Obj(m) => ObjDoc(SortedMembers(j, SortedKeys(m.Keys)))
  }

  function SortedMembers(j: Json, ks: seq<string>): seq<Member>
    requires j.Obj? && forall k | k in ks :: k in j.members
    decreases j, 0, |ks|
  {
    if ks == [] then [] else [Member(ks[0], Sorted(j.members[ks[0]]))] + SortedMembers(j, ks[1..])
  }

  function Print(fc: Strconv, j: Json): string { Render(fc, Tokens(Sorted(j))) }

  /** Sorting keeps the value. */
  lemma {:induction false} SortedMeans(j: Json)
    ensures Meaning(Sorted(j)) == j
    decreases j, 2
  {
    if j.Arr? {
      SortedElementsMean(j);
    } else if j.Obj? {
      SortedObjectMeans(j);
    }
  }

  lemma {:induction false} SortedObjectMeans(j: Json)
    requires j.Obj?
    ensures Meaning(Sorted(j)) == j
    decreases j, 1
  {
    var ks := SortedKeys(j.members.Keys);
    SortedKeysAscend(j.members.Keys);
    SortedMembersMean(j, ks);
    var m := MeaningOf(SortedMembers(j, ks));
    assert m.Keys == j.members.Keys;
    assert m == j.members;
  }

  lemma {:induction false} SortedElementsMean(j: Json)
    requires j.Arr?
    ensures Meaning(Sorted(j)) == j
    decreases j, 1
  {
    var es := j.elements;
    forall i | 0 <= i < |es| ensures Meaning(Sorted(es[i])) == es[i] { SortedMeans(es[i]); }
    assert Meaning(Sorted(j)).elements == es;
  }

  lemma {:induction false} SortedMembersMean(j: Json, ks: seq<string>)
    requires j.Obj? && (forall k | k in ks :: k in j.members) && Ascending(ks)
    ensures forall k :: k in MeaningOf(SortedMembers(j, ks)) <==> k in ks
    ensures forall k | k in ks :: MeaningOf(SortedMembers(j, ks))[k] == j.members[k]
    decreases j, 0, |ks|
  {
    if ks != [] {
      SortedMeans(j.members[ks[0]]);
      assert ks == [ks[0]] + ks[1..];
      SortedMembersMean(j, ks[1..]);
      assert SortedMembers(j, ks)[1..] == SortedMembers(j, ks[1..]);
      assert ks[0] !in ks[1..];
    }
  }

  /** No name is repeated among sorted members. */
  lemma {:induction false} SortedOnce(j: Json, ks: seq<string>, name: string)
    requires j.Obj? && (forall k | k in ks :: k in j.members) && Ascending(ks)
    ensures Occurrences(SortedMembers(j, ks), name) == if name in ks then [Sorted(j.members[name])] else []
    decreases |ks|
  {
    if ks != [] {
      assert ks == [ks[0]] + ks[1..];
      assert ks[0] !in ks[1..];
      SortedOnce(j, ks[1..], name);
      assert SortedMembers(j, ks)[1..] == SortedMembers(j, ks[1..]);
    }
  }

  // ---------------------------------------------------------------- parsing

  function Value(ts: seq<Token>): (r: Option<(Doc, seq<Token>)>)
    ensures r.Some? ==> |r.value.1| < |ts|
    decreases |ts|, 0
  {
    if ts == [] then None
    else
      match ts[0]
      case Null => Some((NilDoc, ts[1..]))
      case True => Some((BoolDoc(true), ts[1..]))
      case False => Some((BoolDoc(false), ts[1..]))
      case Number(f) => Some((NumDoc(f), ts[1..]))
      case Text(s) => Some((StrDoc(s), ts[1..]))
      case LBracket => ArrayValue(ts[1..])
      case LBrace => ObjectValue(ts[1..])
      case _ => None
  }

  /** An array whose opening bracket has been read. */
  function ArrayValue(ts: seq<Token>): (r: Option<(Doc, seq<Token>)>)
    ensures r.Some? ==> |r.value.1| < |ts|
    decreases |ts|, 2
  {
    if ts != [] && ts[0] == RBracket then Some((ArrDoc([]), ts[1..]))
    else
      match Elements(ts)
      case None => None
      case Some((es, rest)) => Some((ArrDoc(es), rest))
  }

  /** An object whose opening brace has been read. */
  function ObjectValue(ts: seq<Token>): (r: Option<(Doc, seq<Token>)>)
    ensures r.Some? ==> |r.value.1| < |ts|
    decreases |ts|, 2
  {
    if ts != [] && ts[0] == RBrace then Some((ObjDoc([]), ts[1..]))
    else
      match Members(ts)
      case None => None
      case Some((ms, rest)) => Some((ObjDoc(ms), rest))
  }

  function Elements(ts: seq<Token>): (r: Option<(seq<Doc>, seq<Token>)>)
    ensures r.Some? ==> |r.value.1| < |ts|
    decreases |ts|, 1
  {
    match Value(ts)
    case None => None
    case Some((v, rest)) =>
      if rest == [] then None
      else if rest[0] == RBracket then Some(([v], rest[1..]))
      else if rest[0] != Comma then None
      else
        match Elements(rest[1..])
        case None => None
        case Some((vs, after)) => Some(([v] + vs, after))
  }

  function Members(ts: seq<Token>): (r: Option<(seq<Member>, seq<Token>)>)
    ensures r.Some? ==> |r.value.1| < |ts|
    decreases |ts|, 1
  {
    if |ts| < 2 || !ts[0].Text? || ts[1] != Colon then None
    else
      match Value(ts[2..])
      case None => None
      case Some((v, rest)) =>
        var m := Member(ts[0].s, v);
        if rest == [] then None
        else if rest[0] == RBrace then Some(([m], rest[1..]))
        else if rest[0] != Comma then None
        else
          match Members(rest[1..])
          case None => None
          case Some((ms, after)) => Some(([m] + ms, after))
  }

  /** What a whole text says, if it is a JSON text. */
  function ParseDoc(fc: Strconv, s: string): Option<Doc> {
    match Lex(fc, s)
    case None => None
    case Some(ts) =>
      match Value(ts)
      case None => None
      case Some((d, rest)) => if rest == [] then Some(d) else None
  }

  /** The value a whole text denotes, if it is a JSON text. */
  function Parse(fc: Strconv, s: string): Option<Json> {
    match ParseDoc(fc, s)
    case None => None
    case Some(d) => Some(Meaning(d))
  }

  // ---------------------------------------------------------------- the parser undoes the printer

  lemma ValueOpens(ts: seq<Token>)
    ensures Value([LBrace] + ts) == ObjectValue(ts)
    ensures Value([LBracket] + ts) == ArrayValue(ts)
  {
    assert ([LBrace] + ts)[1..] == ts && ([LBracket] + ts)[1..] == ts;
  }

  lemma Regroup(a: seq<Token>, b: seq<Token>, c: seq<Token>, d: seq<Token>)
    ensures a + b + c + d == a + (b + (c + d))
  {
  }

  lemma {:induction false} ValueUndone(d: Doc, rest: seq<Token>)
    ensures Value(Tokens(d) + rest) == Some((d, rest))
    decreases d
  {
    match d
    case ArrDoc(es) =>
      if es != [] { ElementsUndone(es, rest); }
      ArrayUndone(es, rest);
      Regroup([LBracket], ElementTokens(es), [RBracket], rest);
      ValueOpens(ElementTokens(es) + ([RBracket] + rest));
    case ObjDoc(ms) =>
      if ms != [] { MembersUndone(ms, rest); }
      ObjectUndone(ms, rest);
      Regroup([LBrace], MemberTokens(ms), [RBrace], rest);
      ValueOpens(MemberTokens(ms) + ([RBrace] + rest));
    case _ =>
      assert (Tokens(d) + rest)[1..] == rest;
  }

  lemma ArrayUndone(es: seq<Doc>, rest: seq<Token>)
    requires es != [] ==> Elements(ElementTokens(es) + ([RBracket] + rest)) == Some((es, rest))
    ensures ArrayValue(ElementTokens(es) + ([RBracket] + rest)) == Some((ArrDoc(es), rest))
  {
    if es == [] {
      assert ElementTokens(es) + ([RBracket] + rest) == [RBracket] + rest;
    } else {
      ElementsHead(es);
    }
  }

  lemma ObjectUndone(ms: seq<Member>, rest: seq<Token>)
    requires ms != [] ==> Members(MemberTokens(ms) + ([RBrace] + rest)) == Some((ms, rest))
    ensures ObjectValue(MemberTokens(ms) + ([RBrace] + rest)) == Some((ObjDoc(ms), rest))
  {
    var ts := MemberTokens(ms) + ([RBrace] + rest);
    if ms == [] {
      assert ts == [RBrace] + rest;
    } else {
      assert ts[0] == Text(ms[0].name);
    }
  }

  lemma ElementsHead(es: seq<Doc>)
    requires es != []
    ensures ElementTokens(es) != [] && ElementTokens(es)[0] != RBracket
  {
    assert Tokens(es[0]) != [] && Tokens(es[0])[0] != RBracket;
  }

  lemma {:induction false} ElementsUndone(es: seq<Doc>, rest: seq<Token>)
    requires es != []
    ensures Elements(ElementTokens(es) + ([RBracket] + rest)) == Some((es, rest))
    decreases es
  {
    var end := [RBracket] + rest;
    if |es| == 1 {
      ValueUndone(es[0], end);
      assert es == [es[0]];
    } else {
      var tail := [Comma] + (ElementTokens(es[1..]) + end);
      assert ElementTokens(es) + end == Tokens(es[0]) + tail;
      ValueUndone(es[0], tail);
      ElementsUndone(es[1..], rest);
      assert es == [es[0]] + es[1..];
    }
  }

  lemma {:induction false} MembersUndone(ms: seq<Member>, rest: seq<Token>)
    requires ms != []
    ensures Members(MemberTokens(ms) + ([RBrace] + rest)) == Some((ms, rest))
    decreases ms
  {
    var end := [RBrace] + rest;
    var tail := if |ms| == 1 then end else [Comma] + (MemberTokens(ms[1..]) + end);
    assert MemberTokens(ms) + end == [Text(ms[0].name), Colon] + (Tokens(ms[0].value) + tail);
    ValueUndone(ms[0].value, tail);
    MemberRead(ms[0], tail);
    if |ms| == 1 {
      assert ms == [ms[0]] && tail[1..] == rest;
    } else {
      MembersUndone(ms[1..], rest);
      assert tail[1..] == MemberTokens(ms[1..]) + end;
      assert ms == [ms[0]] + ms[1..];
    }
  }

  /** Reading members from where a first one is written. */
  lemma MemberRead(m: Member, tail: seq<Token>)
    requires Value(Tokens(m.value) + tail) == Some((m.value, tail))
    ensures Members([Text(m.name), Colon] + (Tokens(m.value) + tail)) ==
            if tail == [] then None
            else if tail[0] == RBrace then Some(([m], tail[1..]))
            else if tail[0] != Comma then None
            else
              match Members(tail[1..])
              case None => None
              case Some((ms, after)) => Some(([m] + ms, after))
  {
    var ts := [Text(m.name), Colon] + (Tokens(m.value) + tail);
    assert ts[2..] == Tokens(m.value) + tail;
  }

  // ---------------------------------------------------------------- printed tokens can be told apart

  lemma SpacedConcat(a: seq<Token>, b: seq<Token>)
    requires Spaced(a) && Spaced(b)
    requires a != [] && b != [] && a[|a| - 1].Number? ==> b[0].Punctuation()
    ensures Spaced(a + b)
  {
    var c := a + b;
    forall i | 0 <= i < |c| - 1 && c[i].Number? ensures c[i + 1].Punctuation() {
      if i >= |a| { assert b[i - |a|].Number?; }
    }
  }

  lemma {:induction false} TokensSpaced(d: Doc)
    ensures Spaced(Tokens(d))
    decreases d
  {
    match d
    case ArrDoc(es) =>
      ElementsSpaced(es);
      SpacedConcat([LBracket], ElementTokens(es));
      SpacedConcat([LBracket] + ElementTokens(es), [RBracket]);
    case ObjDoc(ms) =>
      MembersSpaced(ms);
      SpacedConcat([LBrace], MemberTokens(ms));
      SpacedConcat([LBrace] + MemberTokens(ms), [RBrace]);
    case _ =>
  }

  lemma {:induction false} ElementsSpaced(es: seq<Doc>)
    ensures Spaced(ElementTokens(es))
    decreases es
  {
    if es != [] {
      TokensSpaced(es[0]);
      if |es| > 1 {
        ElementsSpaced(es[1..]);
        SpacedConcat(Tokens(es[0]), [Comma]);
        SpacedConcat(Tokens(es[0]) + [Comma], ElementTokens(es[1..]));
      }
    }
  }

  lemma {:induction false} MembersSpaced(ms: seq<Member>)
    ensures Spaced(MemberTokens(ms))
    decreases ms
  {
    if ms != [] {
      var v := Tokens(ms[0].value);
      TokensSpaced(ms[0].value);
      SpacedConcat([Text(ms[0].name), Colon], v);
      if |ms| > 1 {
        MembersSpaced(ms[1..]);
        SpacedConcat([Comma], MemberTokens(ms[1..]));
        SpacedConcat([Text(ms[0].name), Colon] + v, [Comma] + MemberTokens(ms[1..]));
      }
    }
  }

  /** Every text tree is what its rendered tokens say. */
  lemma DocUndone(fc: Strconv, d: Doc)
    ensures ParseDoc(fc, Render(fc, Tokens(d))) == Some(d)
  {
    TokensSpaced(d);
    RenderUndone(fc, Tokens(d));
    ValueUndone(d, []);
    assert Tokens(d) + [] == Tokens(d);
  }

  /** Every value is the one its printed text denotes. */
  lemma PrintUndone(fc: Strconv, j: Json)
    ensures Parse(fc, Print(fc, j)) == Some(j) && ParseDoc(fc, Print(fc, j)) == Some(Sorted(j))
    ensures Print(fc, j) != ""
  {
    DocUndone(fc, Sorted(j));
    SortedMeans(j);
  }
}
