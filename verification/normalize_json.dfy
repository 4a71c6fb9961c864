/**
  `NormalizeJsonString`: a text is parsed and printed again; a text that does not parse is
  handed back with an error.
 */
module NormalizeJson {
  import opened Wrappers
  import opened JsonLexer
  import opened Json
  import opened JsonGrammar

  datatype Normalized = Normalized(text: string, failed: bool)

  function Normalize(fc: Strconv, s: string): Normalized {
    if s == "" then Normalized("", false)
    else
      match Parse(fc, s)
      case None => Normalized(s, true)
      case Some(j) => Normalized(Print(fc, j), false)
  }

  /** Not empty, and a JSON text. */
  predicate Denotes(fc: Strconv, s: string) { Parse(fc, s).Some? }

  lemma EmptyDenotesNothing(fc: Strconv)
    ensures !Denotes(fc, "")
  {
  }

  /** Normalising a normal form changes nothing and does not fail. */
  lemma NormalizeIdempotent(fc: Strconv, s: string)
    ensures var n := Normalize(fc, s);
            Normalize(fc, n.text) == Normalized(n.text, n.failed)
  {
    if Denotes(fc, s) {
      PrintUndone(fc, Parse(fc, s).value);
    }
  }

  /** Two JSON texts share their normal form exactly when they denote the same value. */
  lemma SameNormalForm(fc: Strconv, s: string, t: string)
    requires Denotes(fc, s) && Denotes(fc, t)
    ensures Normalize(fc, s).text == Normalize(fc, t).text <==> Parse(fc, s) == Parse(fc, t)
  {
    EmptyDenotesNothing(fc);
    PrintUndone(fc, Parse(fc, s).value);
    PrintUndone(fc, Parse(fc, t).value);
  }

  /** The normal form denotes the value of the text it came from. */
  lemma NormalFormDenotes(fc: Strconv, s: string)
    requires Denotes(fc, s)
    ensures !Normalize(fc, s).failed && Parse(fc, Normalize(fc, s).text) == Parse(fc, s)
    ensures Normalize(fc, s).text != ""
  {
    EmptyDenotesNothing(fc);
    PrintUndone(fc, Parse(fc, s).value);
  }

  // ---------------------------------------------------------------- trimming

  function TrimLeft(s: string): (t: string)
    ensures t == "" || !IsSpace(t[0])
  {
    if s != "" && IsSpace(s[0]) then TrimLeft(s[1..]) else s
  }

  function TrimRight(s: string): (t: string)
    ensures t == "" || !IsSpace(t[|t| - 1])
  {
    if s != "" && IsSpace(s[|s| - 1]) then TrimRight(s[..|s| - 1]) else s
  }

  /** Go's `strings.TrimSpace`. */
  function Trim(s: string): string { TrimRight(TrimLeft(s)) }

  lemma {:induction false} TrimLeftKeepsTokens(fc: Strconv, s: string)
    requires Lex(fc, s).Some?
    ensures Lex(fc, TrimLeft(s)) == Lex(fc, s)
  {
    if s != "" && IsSpace(s[0]) {
      SpaceStartsNothing(fc, s);
      TrimLeftKeepsTokens(fc, s[1..]);
    }
  }

  lemma SpaceStartsNothing(fc: Strconv, s: string)
    requires s != "" && IsSpace(s[0])
    ensures Lex(fc, s).Some? ==> Lex(fc, s) == Lex(fc, s[1..])
  {
  }

  lemma {:induction false} TrimRightKeepsTokens(fc: Strconv, s: string)
    requires Lex(fc, s).Some?
    ensures Lex(fc, TrimRight(s)) == Lex(fc, s)
  {
    if s != "" && IsSpace(s[|s| - 1]) {
      var t := s[..|s| - 1];
      assert s == t + [s[|s| - 1]];
      LexBeforeSpace(fc, t, s[|s| - 1]);
      TrimRightKeepsTokens(fc, t);
    }
  }

  /** Trimming a JSON text leaves its value, and so its normal form, alone. */
  lemma TrimKeepsValue(fc: Strconv, s: string)
    requires Denotes(fc, s)
    ensures Parse(fc, Trim(s)) == Parse(fc, s)
    ensures Trim(s) != "" && Normalize(fc, Trim(s)) == Normalize(fc, s)
  {
    TrimLeftKeepsTokens(fc, s);
    TrimRightKeepsTokens(fc, TrimLeft(s));
    EmptyDenotesNothing(fc);
  }

  predicate WhiteSpace(c: char) {
    c in {
      '\t', '\n', '\U{000B}', '\U{000C}', '\r', ' ', '\U{0085}', '\U{00A0}', '\U{1680}', '\U{2000}', '\U{2001}',
      '\U{2002}', '\U{2003}', '\U{2004}', '\U{2005}', '\U{2006}', '\U{2007}', '\U{2008}', '\U{2009}', '\U{200A}',
      '\U{2028}', '\U{2029}', '\U{202F}', '\U{205F}', '\U{3000}'
    }
  }

  lemma SpaceIsWhite(c: char)
    ensures IsSpace(c) <==> WhiteSpace(c)
  {
  }

  lemma {:induction false} LeftTrimmed(s: string)
    ensures var n := |s| - |TrimLeft(s)|;
            0 <= n && s[n..] == TrimLeft(s) && forall i | 0 <= i < n :: WhiteSpace(s[i])
  {
    if s != "" && IsSpace(s[0]) {
      SpaceIsWhite(s[0]);
      LeftTrimmed(s[1..]);
    }
  }

  lemma {:induction false} RightTrimmed(s: string)
    ensures var n := |TrimRight(s)|;
            n <= |s| && s[..n] == TrimRight(s) && forall i | n <= i < |s| :: WhiteSpace(s[i])
  {
    if s != "" && IsSpace(s[|s| - 1]) {
      SpaceIsWhite(s[|s| - 1]);
      RightTrimmed(s[..|s| - 1]);
    }
  }

  /** White space goes from both ends, all of it and nothing else. */
  lemma Trimmed(s: string)
    ensures exists i, j | 0 <= i <= j <= |s| ::
              && Trim(s) == s[i..j]
              && (forall k | 0 <= k < |s| && !(i <= k < j) :: WhiteSpace(s[k]))
              && (i < j ==> !WhiteSpace(s[i]) && !WhiteSpace(s[j - 1]))
  {
    LeftTrimmed(s);
    RightTrimmed(TrimLeft(s));
    var t := TrimLeft(s);
    var i := |s| - |t|;
    var j := i + |Trim(s)|;
    assert Trim(s) == t[..j - i] == s[i..j];
    forall k | 0 <= k < |s| && !(i <= k < j) ensures WhiteSpace(s[k]) {
      if k >= j { assert s[k] == t[k - i]; }
    }
    if i < j {
      SpaceIsWhite(s[i]);
      SpaceIsWhite(s[j - 1]);
      assert s[i] == t[0] && s[j - 1] == Trim(s)[j - i - 1];
    }
  }

  // ---------------------------------------------------------------- worked examples

  function SampleDoc(): Doc {
    ObjDoc([Member("b", ArrDoc(SampleElements())), Member("a", NilDoc)])
  }

  function SampleTokens(): seq<Token> {
    [LBrace, Text("b"), Colon, LBracket, True, Comma, Text("</"), RBracket, Comma, Text("a"), Colon, Null, RBrace]
  }

  function SampleElements(): seq<Doc> { [BoolDoc(true), StrDoc("</")] }

  lemma SampleElementsSay()
    ensures ElementTokens(SampleElements()) == [True, Comma, Text("</")]
  {
    var es := SampleElements();
    assert es[1..] == [StrDoc("</")];
  }

  lemma SampleSays()
    ensures Tokens(SampleDoc()) == SampleTokens()
  {
    SampleElementsSay();
    var ms := SampleDoc().members;
    assert ms[1..] == [Member("a", NilDoc)];
    assert MemberTokens(ms[1..]) == [Text("a"), Colon, Null];
  }

  lemma SampleSorted()
    ensures Sorted(Meaning(SampleDoc())) ==
            ObjDoc([Member("a", NilDoc), Member("b", ArrDoc(SampleElements()))])
  {
    var j := Meaning(SampleDoc());
    var ms := SampleDoc().members;
    assert ms[1..] == [Member("a", NilDoc)];
    assert MeaningOf(ms[1..]) == map["a" := Nil];
    var es := SampleElements();
    assert Meaning(ArrDoc(es)).elements == [Bool(true), Str("</")];
    assert j.members == map["a" := Nil, "b" := Arr([Bool(true), Str("</")])];
    SampleKeys();
    assert j.members.Keys == {"a", "b"};
    assert Sorted(j.members["b"]).elements == es;
    assert SortedMembers(j, ["b"]) == [Member("b", ArrDoc(es))] by { assert ["b"][1..] == []; }
    assert ["a", "b"][1..] == ["b"];
  }

  lemma SampleKeys()
    ensures SortedKeys({"a", "b"}) == ["a", "b"]
  {
    SortedKeysAscend({"a", "b"});
  }

  /** However this object is laid out, its normal form has the names in order. */
  lemma SampleNormalForm(fc: Strconv, s: string)
    requires Written(fc, s, [LBrace, Text("b"), Colon, LBracket, True, Comma, Text("</"), RBracket, Comma,
                             Text("a"), Colon, Null, RBrace])
    ensures var ts := [LBrace, Text("a"), Colon, Null, Comma,
                       Text("b"), Colon, LBracket, True, Comma, Text("</"), RBracket, RBrace];
            var n := Normalize(fc, s);
            !n.failed && n.text == Render(fc, ts) && Packed(fc, n.text, ts)
  {
    var ts := [LBrace, Text("a"), Colon, Null, Comma,
               Text("b"), Colon, LBracket, True, Comma, Text("</"), RBracket, RBrace];
    SampleSays();
    ParsesWhatIsWritten(fc, s, SampleDoc());
    SampleSorted();
    SampleReordered();
    RenderPacked(fc, ts);
  }

  lemma SampleReordered()
    ensures Tokens(ObjDoc([Member("a", NilDoc), Member("b", ArrDoc(SampleElements()))])) ==
            [LBrace, Text("a"), Colon, Null, Comma,
             Text("b"), Colon, LBracket, True, Comma, Text("</"), RBracket, RBrace]
  {
    SampleElementsSay();
    var ms := [Member("a", NilDoc), Member("b", ArrDoc(SampleElements()))];
    assert ms[1..] == [Member("b", ArrDoc(SampleElements()))];
    assert MemberTokens(ms[1..]) == [Text("b"), Colon, LBracket, True, Comma, Text("</"), RBracket];
  }

  lemma EmptyObjectWritten(fc: Strconv)
    ensures Written(fc, "{\n}", [LBrace, RBrace])
  {
    WrittenStep(fc, "\n", "}", RBrace, "", []);
    assert "\n" + "}" + "" == "\n}";
    WrittenStep(fc, "", "{", LBrace, "\n}", [RBrace]);
    assert "" + "{" + "\n}" == "{\n}";
  }

  lemma EmptyObjectPrinted(fc: Strconv)
    ensures Print(fc, Obj(map[])) == "{}"
  {
    var ts := [LBrace, RBrace];
    assert Sorted(Obj(map[])) == ObjDoc([]) && Tokens(ObjDoc([])) == ts;
    assert ts[1..] == [RBrace];
    assert Render(fc, [RBrace]) == "}";
  }

  /** An empty object over two lines is a JSON text. */
  lemma EmptyObjectNormalForm(fc: Strconv)
    ensures Normalize(fc, "{\n}") == Normalized("{}", false)
  {
    EmptyObjectWritten(fc);
    var s := "{\n}";
    assert Tokens(ObjDoc([])) == [LBrace, RBrace];
    ParsesWhatIsWritten(fc, s, ObjDoc([]));
    EmptyObjectPrinted(fc);
    NormalizedAs(fc, s, ObjDoc([]));
  }

  lemma NormalizedAs(fc: Strconv, s: string, d: Doc)
    requires ParseDoc(fc, s) == Some(d)
    ensures Normalize(fc, s) == Normalized(Print(fc, Meaning(d)), false)
  {
    EmptyDenotesNothing(fc);
  }
}
