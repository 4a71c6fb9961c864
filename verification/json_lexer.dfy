/**
  The lexical half of `encoding/json` as the operator uses it: white space, punctuation,
  the three literal names, string literals with their escapes, and number literals
  (sections 2, 3, 6 and 7 of RFC 8259).  Texts are sequences of Unicode scalar values.

  Conversion between number literals and float64 values belongs to Go's `strconv`; it is a
  parameter of the model, constrained only by the round-trip law that package documents.
 */
module JsonLexer {
  import opened Wrappers
  import opened Characters

  /** A float64 value, known only by its identity. */
  type Float = nat

  datatype FloatCodec = FloatCodec(parse: string -> Option<Float>, format: Float -> string)

  ghost predicate RoundTrips(c: FloatCodec) {
    forall f: Float {:trigger c.format(f)} :: IsNumber(c.format(f)) && c.parse(c.format(f)) == Some(f)
  }

  type Strconv = c: FloatCodec | RoundTrips(c) ghost witness UnaryCodec()

  datatype Token =
    | LBrace | RBrace | LBracket | RBracket | Colon | Comma
    | True | False | Null
    | Text(s: string)
    | Number(f: Float)
  {
    predicate Punctuation() {
      LBrace? || RBrace? || LBracket? || RBracket? || Colon? || Comma?
    }
  }

  predicate IsBlank(c: char) { c == ' ' || c == '\t' || c == '\n' || c == '\r' }

  predicate NumberPart(c: char) { IsDigit(c) || c == '.' || c == 'e' || c == 'E' || c == '+' || c == '-' }

  /** The text does not go on with a character that could lengthen a number literal. */
  predicate EndsNumber(s: string) { s == "" || !NumberPart(s[0]) }

  // ---------------------------------------------------------------- numbers

  /** The states of the scanner inside a number literal. */
  datatype Scan = Start | Minus | Zero | Whole | Point | Fraction | Exponent | Sign | Power
  {
    /** The literal may end here. */
    predicate Complete() { Zero? || Whole? || Fraction? || Power? }
  }

  function Advance(st: Scan, c: char): Option<Scan> {
    match st
    case Start =>
      if c == '-' then Some(Minus) else if c == '0' then Some(Zero) else if IsDigit(c) then Some(Whole) else None
    case Minus => if c == '0' then Some(Zero) else if IsDigit(c) then Some(Whole) else None
    case Zero => if c == '.' then Some(Point) else if c == 'e' || c == 'E' then Some(Exponent) else None
    case Whole =>
      if IsDigit(c) then Some(Whole) else if c == '.' then Some(Point)
      else if c == 'e' || c == 'E' then Some(Exponent) else None
    case Point => if IsDigit(c) then Some(Fraction) else None
    case Fraction => if IsDigit(c) then Some(Fraction) else if c == 'e' || c == 'E' then Some(Exponent) else None
    case Exponent => if c == '+' || c == '-' then Some(Sign) else if IsDigit(c) then Some(Power) else None
    case Sign => if IsDigit(c) then Some(Power) else None
    case Power => if IsDigit(c) then Some(Power) else None
  }

  /** How many characters the scanner takes from `s`; nothing when it stops inside a literal. */
  function Munch(st: Scan, s: string): (n: Option<nat>)
    ensures n.Some? ==> n.value <= |s|
    ensures n == Some(0) ==> st.Complete()
    decreases |s|
  {
    if s == "" || Advance(st, s[0]).None? then
      if st.Complete() then Some(0) else None
    else
      match Munch(Advance(st, s[0]).value, s[1..])
      case None => None
      case Some(n) => Some(n + 1)
  }

  /** Length of the number literal at the head of `s`, as long as possible. */
  function NumberLength(s: string): (n: Option<nat>)
    ensures n.Some? ==> 0 < n.value <= |s|
  {
    Munch(Start, s)
  }

  predicate IsNumber(s: string) { NumberLength(s) == Some(|s|) }

  function Ones(n: nat): (s: string)
    ensures |s| == n
  {
    if n == 0 then "" else "1" + Ones(n - 1)
  }

  lemma {:induction false} OnesAreNumbers(n: nat)
    ensures Munch(Whole, Ones(n)) == Some(n)
  {
    if n > 0 {
      OnesAreNumbers(n - 1);
      assert Ones(n)[1..] == Ones(n - 1);
    }
  }

  function UnaryFormat(f: Float): string { "1" + Ones(f) }

  function UnaryParse(s: string): Option<Float> {
    if s != "" && s == UnaryFormat(|s| - 1) then Some(|s| - 1) else None
  }

  lemma UnaryRoundTrips(f: Float)
    ensures IsNumber(UnaryFormat(f)) && UnaryParse(UnaryFormat(f)) == Some(f)
  {
    OnesAreNumbers(f);
    assert UnaryFormat(f)[1..] == Ones(f);
  }

  /** A conversion that obeys the law: value f is written as f + 1 ones. */
  ghost function UnaryCodec(): (c: FloatCodec)
    ensures RoundTrips(c)
  {
    var c := FloatCodec(UnaryParse, UnaryFormat);
    assert RoundTrips(c) by {
      forall f: Float ensures IsNumber(c.format(f)) && c.parse(c.format(f)) == Some(f) {
        UnaryRoundTrips(f);
      }
    }
    c
  }

  // ---------------------------------------------------------------- strings

  function HexValue(c: char): (n: int)
    ensures -1 <= n < 16
  {
    if '0' <= c <= '9' then c as int - '0' as int
    else if 'a' <= c <= 'f' then c as int - 'a' as int + 10
    else if 'A' <= c <= 'F' then c as int - 'A' as int + 10
    else -1
  }

  function HexLetter(n: int): char
    requires 0 <= n < 16
  {
    "0123456789abcdef"[n]
  }

  function Hex4(s: string): (n: int)
    ensures -1 <= n < 0x10000
  {
    if |s| < 4 || HexValue(s[0]) < 0 || HexValue(s[1]) < 0 || HexValue(s[2]) < 0 || HexValue(s[3]) < 0 then -1
    else ((HexValue(s[0]) * 16 + HexValue(s[1])) * 16 + HexValue(s[2])) * 16 + HexValue(s[3])
  }

  /** The code unit of a second escape that follows at once, or -1. */
  function NextUnit(s: string): int {
    if |s| >= 6 && s[0] == '\\' && s[1] == 'u' then Hex4(s[2..]) else -1
  }

  /** Decodes one escape whose backslash has been read; lone surrogates become U+FFFD. */
  function Unescape(s: string): (r: Option<(char, string)>)
    ensures r.Some? ==> |r.value.1| < |s|
  {
    if s == "" then None
    else if s[0] == '"' || s[0] == '\\' || s[0] == '/' then Some((s[0], s[1..]))
    else if s[0] == 'b' then Some(('\U{0008}', s[1..]))
    else if s[0] == 'f' then Some(('\U{000C}', s[1..]))
    else if s[0] == 'n' then Some(('\n', s[1..]))
    else if s[0] == 'r' then Some(('\r', s[1..]))
    else if s[0] == 't' then Some(('\t', s[1..]))
    else if s[0] != 'u' then None
    else
      var unit := Hex4(s[1..]);
      if unit < 0 then None
      else if 0xD800 <= unit < 0xE000 then
        var second := NextUnit(s[5..]);
        if unit < 0xDC00 && 0xDC00 <= second < 0xE000 then
          Some(((0x10000 + (unit - 0xD800) * 0x400 + (second - 0xDC00)) as char, s[11..]))
        else Some(('\U{FFFD}', s[5..]))
      else Some((unit as char, s[5..]))
  }

  /** The next character that a string literal denotes. */
  function StringChar(s: string): (r: Option<(char, string)>)
    requires s != ""
    ensures r.Some? ==> |r.value.1| < |s|
  {
    if s[0] == '\\' then Unescape(s[1..]) else Some((s[0], s[1..]))
  }

  /** Reads a string literal whose opening quote has been read. */
  function ScanString(s: string): (r: Option<(string, string)>)
    ensures r.Some? ==> |r.value.1| < |s|
    decreases |s|
  {
    if s == "" then None
    else if s[0] == '"' then Some(("", s[1..]))
    else if s[0] < ' ' then None
    else
      match StringChar(s)
      case None => None
      case Some((c, rest)) =>
        match ScanString(rest)
        case None => None
        case Some((cs, after)) => Some(([c] + cs, after))
  }

  /** How `json.Marshal` writes one character inside a string literal. */
  function Escape(c: char): string {
    if c == '"' then "\\\""
    else if c == '\\' then "\\\\"
    else if c == '\n' then "\\n"
    else if c == '\r' then "\\r"
    else if c == '\t' then "\\t"
    else if c < ' ' || c == '<' || c == '>' || c == '&' then
      "\\u00" + [HexLetter(c as int / 16), HexLetter(c as int % 16)]
    else if c == '\U{2028}' then "\\u2028"
    else if c == '\U{2029}' then "\\u2029"
    else [c]
  }

  function EscapeAll(s: string): string {
    if s == "" then "" else Escape(s[0]) + EscapeAll(s[1..])
  }

  // ---------------------------------------------------------------- tokens

  function Spell(fc: Strconv, t: Token): string {
    match t
    case LBrace => "{"
    case RBrace => "}"
    case LBracket => "["
    case RBracket => "]"
    case Colon => ":"
    case Comma => ","
    case True => Word(t)
    case False => Word(t)
    case Null => Word(t)
    case Text(s) => "\"" + EscapeAll(s) + "\""
    case Number(f) => fc.format(f)
  }

  function Render(fc: Strconv, ts: seq<Token>): string {
    if ts == [] then "" else Spell(fc, ts[0]) + Render(fc, ts[1..])
  }

  function PunctuationAt(c: char): Option<Token> {
    if c == '{' then Some(LBrace) else if c == '}' then Some(RBrace)
    else if c == '[' then Some(LBracket) else if c == ']' then Some(RBracket)
    else if c == ':' then Some(Colon) else if c == ',' then Some(Comma)
    else None
  }

  function WordAt(c: char): Option<Token> {
    if c == 't' then Some(True) else if c == 'f' then Some(False) else if c == 'n' then Some(Null) else None
  }

  function Word(t: Token): string {
    match t
    case True => "true"
    case False => "false"
    case _ => "null"
  }

  predicate StartsWith(s: string, w: string) { |w| <= |s| && s[..|w|] == w }

  /** The token at the head of `s`, which does not start with white space. */
  function Next(fc: Strconv, s: string): (r: Option<(Token, string)>)
    requires s != ""
    ensures r.Some? ==> |r.value.1| < |s|
  {
    if PunctuationAt(s[0]).Some? then Some((PunctuationAt(s[0]).value, s[1..]))
    else if WordAt(s[0]).Some? then NextWord(WordAt(s[0]).value, s)
    else if s[0] == '"' then NextText(s[1..])
    else NextNumber(fc, s)
  }

  function NextWord(t: Token, s: string): (r: Option<(Token, string)>)
    ensures r.Some? ==> |r.value.1| < |s|
  {
    if StartsWith(s, Word(t)) then Some((t, s[|Word(t)|..])) else None
  }

  function NextText(s: string): (r: Option<(Token, string)>)
    ensures r.Some? ==> |r.value.1| < |s|
  {
    match ScanString(s)
    case None => None
    case Some((str, rest)) => Some((Text(str), rest))
  }

  function NextNumber(fc: Strconv, s: string): (r: Option<(Token, string)>)
    ensures r.Some? ==> |r.value.1| < |s|
  {
    match NumberLength(s)
    case None => None
    case Some(n) =>
      match fc.parse(s[..n])
      case None => None
      case Some(f) => Some((Number(f), s[n..]))
  }

  function Lex(fc: Strconv, s: string): Option<seq<Token>>
    decreases |s|
  {
    if s == "" then Some([])
    else if IsBlank(s[0]) then Lex(fc, s[1..])
    else
      match Next(fc, s)
      case None => None
      case Some((t, rest)) =>
        match Lex(fc, rest)
        case None => None
        case Some(ts) => Some([t] + ts)
  }

  // ---------------------------------------------------------------- spelling and lexing undo each other

  lemma {:induction false} MunchAppend(st: Scan, s: string, t: string)
    requires EndsNumber(t) && Munch(st, s).Some?
    ensures Munch(st, s + t) == Munch(st, s)
    decreases |s|
  {
    if s == "" {
      assert s + t == t;
    } else if Advance(st, s[0]).Some? {
      MunchAppend(Advance(st, s[0]).value, s[1..], t);
      assert (s + t)[1..] == s[1..] + t;
    }
  }

  lemma HexUndone(c: char, rest: string)
    requires c as int < 0x100
    ensures var text := "u00" + [HexLetter(c as int / 16), HexLetter(c as int % 16)] + rest;
            Unescape(text) == Some((c, rest))
  {
    var high, low := c as int / 16, c as int % 16;
    var text := "u00" + [HexLetter(high), HexLetter(low)] + rest;
    assert HexValue(HexLetter(high)) == high && HexValue(HexLetter(low)) == low;
    assert text[1..][..4] == "00" + [HexLetter(high), HexLetter(low)];
    assert Hex4(text[1..]) == c as int;
    assert text[5..] == rest;
  }

  lemma SeparatorUndone(c: char, rest: string)
    requires c == '\U{2028}' || c == '\U{2029}'
    ensures Unescape(Escape(c)[1..] + rest) == Some((c, rest))
  {
    var text := Escape(c)[1..] + rest;
    assert Hex4(text[1..]) == c as int;
    assert text[5..] == rest;
  }

  lemma EscapeUndone(c: char, rest: string)
    ensures var text := Escape(c) + rest;
            text[0] >= ' ' && text[0] != '"' && StringChar(text) == Some((c, rest))
  {
    var text := Escape(c) + rest;
    assert text[1..] == Escape(c)[1..] + rest;
    if c == '"' || c == '\\' || c == '\n' || c == '\r' || c == '\t' {
      assert text[1..][1..] == rest;
    } else if c < ' ' || c == '<' || c == '>' || c == '&' {
      assert Escape(c)[1..] == "u00" + [HexLetter(c as int / 16), HexLetter(c as int % 16)];
      HexUndone(c, rest);
    } else if c == '\U{2028}' || c == '\U{2029}' {
      SeparatorUndone(c, rest);
    }
  }

  lemma ScanEscaped(c: char, tail: string)
    ensures ScanString(Escape(c) + tail) ==
            match ScanString(tail)
            case None => None
            case Some((cs, after)) => Some(([c] + cs, after))
  {
    EscapeUndone(c, tail);
  }

  lemma {:induction false} StringUndone(s: string, rest: string)
    ensures ScanString(EscapeAll(s) + ("\"" + rest)) == Some((s, rest))
  {
    var close := "\"" + rest;
    if s == "" {
      assert EscapeAll(s) + close == close;
    } else {
      var tail := EscapeAll(s[1..]) + close;
      assert EscapeAll(s) + close == Escape(s[0]) + tail;
      StringUndone(s[1..], rest);
      ScanEscaped(s[0], tail);
      assert [s[0]] + s[1..] == s;
    }
  }

  lemma NumberUndone(fc: Strconv, f: Float, rest: string)
    requires EndsNumber(rest)
    ensures var lit := fc.format(f);
            lit != "" && (lit[0] == '-' || IsDigit(lit[0])) && NextNumber(fc, lit + rest) == Some((Number(f), rest))
  {
    var lit := fc.format(f);
    assert IsNumber(lit);
    MunchAppend(Start, lit, rest);
    assert (lit + rest)[..|lit|] == lit && (lit + rest)[|lit|..] == rest;
  }

  lemma WordUndone(t: Token, rest: string)
    ensures NextWord(t, Word(t) + rest) == Some((t, rest))
  {
    assert (Word(t) + rest)[..|Word(t)|] == Word(t) && (Word(t) + rest)[|Word(t)|..] == rest;
  }

  lemma TextUndone(s: string, rest: string)
    ensures var text := "\"" + EscapeAll(s) + "\"" + rest;
            text[0] == '"' && NextText(text[1..]) == Some((Text(s), rest))
  {
    StringUndone(s, rest);
    var text := "\"" + EscapeAll(s) + "\"" + rest;
    assert text[1..] == EscapeAll(s) + ("\"" + rest);
  }

  lemma PunctuationUndone(fc: Strconv, t: Token, rest: string)
    requires t.Punctuation()
    ensures |Spell(fc, t)| == 1 && PunctuationAt(Spell(fc, t)[0]) == Some(t)
    ensures (Spell(fc, t) + rest)[1..] == rest
  {
  }

  predicate Spelled(fc: Strconv, t: Token, rest: string) {
    && Spell(fc, t) != "" && !IsBlank(Spell(fc, t)[0])
    && Next(fc, Spell(fc, t) + rest) == Some((t, rest))
  }

  lemma NumberSpelled(fc: Strconv, f: Float, rest: string)
    requires EndsNumber(rest)
    ensures Spelled(fc, Number(f), rest)
  {
    NumberUndone(fc, f, rest);
    assert PunctuationAt(fc.format(f)[0]).None?;
  }

  lemma WordSpelled(fc: Strconv, t: Token, rest: string)
    requires t.True? || t.False? || t.Null?
    ensures Spelled(fc, t, rest)
  {
    WordUndone(t, rest);
  }

  lemma TextSpelled(fc: Strconv, s: string, rest: string)
    ensures Spelled(fc, Text(s), rest)
  {
    TextUndone(s, rest);
  }

  lemma PunctuationSpelled(fc: Strconv, t: Token, rest: string)
    requires t.Punctuation()
    ensures Spelled(fc, t, rest)
  {
    PunctuationUndone(fc, t, rest);
  }

  /** Lexing a spelled token gives that token back and leaves the rest alone. */
  lemma SpellUndone(fc: Strconv, t: Token, rest: string)
    requires t.Number? ==> EndsNumber(rest)
    ensures Spelled(fc, t, rest)
  {
    if t.Text? {
      TextSpelled(fc, t.s, rest);
    } else if t.Number? {
      NumberSpelled(fc, t.f, rest);
    } else if t.Punctuation() {
      PunctuationSpelled(fc, t, rest);
    } else {
      WordSpelled(fc, t, rest);
    }
  }

  /** Every number token is followed by punctuation or by nothing. */
  predicate Spaced(ts: seq<Token>) {
    forall i :: 0 <= i < |ts| - 1 && ts[i].Number? ==> ts[i + 1].Punctuation()
  }

  lemma {:induction false} RenderUndone(fc: Strconv, ts: seq<Token>)
    requires Spaced(ts)
    ensures Lex(fc, Render(fc, ts)) == Some(ts)
  {
    if ts != [] {
      var rest := Render(fc, ts[1..]);
      assert Spaced(ts[1..]) by {
        forall i | 0 <= i < |ts[1..]| - 1 && ts[1..][i].Number? ensures ts[1..][i + 1].Punctuation() {
          assert ts[i + 1].Number?;
        }
      }
      RenderUndone(fc, ts[1..]);
      if ts[0].Number? && |ts| > 1 {
        assert ts[0 + 1].Punctuation();
        assert rest == Spell(fc, ts[1]) + Render(fc, ts[1..][1..]);
      }
      SpellUndone(fc, ts[0], rest);
      assert [ts[0]] + ts[1..] == ts;
    }
  }

  // ---------------------------------------------------------------- trailing space

  /** Go's `unicode.IsSpace`. */
  predicate IsSpace(c: char) {
    '\t' <= c <= '\r' || c == ' ' || c == '\U{0085}' || c == '\U{00A0}' || c == '\U{1680}' ||
    '\U{2000}' <= c <= '\U{200A}' || c == '\U{2028}' || c == '\U{2029}' || c == '\U{202F}' ||
    c == '\U{205F}' || c == '\U{3000}'
  }

  lemma {:induction false} MunchBeforeSpace(st: Scan, s: string, c: char)
    requires IsSpace(c) && Munch(st, s + [c]).Some?
    ensures Munch(st, s) == Munch(st, s + [c])
    decreases |s|
  {
    if s != "" && Advance(st, s[0]).Some? {
      assert (s + [c])[1..] == s[1..] + [c];
      MunchBeforeSpace(Advance(st, s[0]).value, s[1..], c);
    }
  }

  lemma EscapeBeforeSpace(s: string, c: char)
    requires IsSpace(c) && Unescape(s + [c]).Some? && Unescape(s + [c]).value.1 != ""
    ensures var (ch, rest) := Unescape(s + [c]).value;
            rest[|rest| - 1] == c && Unescape(s) == Some((ch, rest[..|rest| - 1]))
  {
    var t := s + [c];
    assert s != "";
    if s[0] == 'u' {
      assert Hex4(t[1..]) >= 0;
      assert t[1..][..4] == t[1..5];
      assert |s| >= 5;
      assert t[1..] == s[1..] + [c] && t[5..] == s[5..] + [c];
      assert Hex4(s[1..]) == Hex4(t[1..]);
      assert NextUnit(t[5..]) == NextUnit(s[5..]) || |s| < 11;
      if |s| >= 11 {
        assert t[11..] == s[11..] + [c];
      }
    } else {
      assert t[1..] == s[1..] + [c];
    }
  }

  lemma CharBeforeSpace(s: string, c: char)
    requires s != "" && IsSpace(c) && StringChar(s + [c]).Some? && StringChar(s + [c]).value.1 != ""
    ensures var (ch, rest) := StringChar(s + [c]).value;
            rest[|rest| - 1] == c && StringChar(s) == Some((ch, rest[..|rest| - 1]))
  {
    assert (s + [c])[1..] == s[1..] + [c];
    if s[0] == '\\' {
      EscapeBeforeSpace(s[1..], c);
    }
  }

  lemma {:induction false} StringBeforeSpace(s: string, c: char)
    requires IsSpace(c) && ScanString(s + [c]).Some?
    ensures var (str, rest) := ScanString(s + [c]).value;
            rest != "" && rest[|rest| - 1] == c && ScanString(s) == Some((str, rest[..|rest| - 1]))
    decreases |s|
  {
    var t := s + [c];
    if s != "" && s[0] == '"' {
      assert t[1..][..|s| - 1] == s[1..];
    } else if s != "" {
      CharBeforeSpace(s, c);
      var rest := StringChar(t).value.1;
      var kept := rest[..|rest| - 1];
      assert rest == kept + [c];
      StringBeforeSpace(kept, c);
    }
  }

  lemma WordBeforeSpace(t: Token, s: string, c: char)
    requires IsSpace(c) && NextWord(t, s + [c]).Some?
    ensures var rest := NextWord(t, s + [c]).value.1;
            rest != "" && rest[|rest| - 1] == c && NextWord(t, s) == Some((t, rest[..|rest| - 1]))
  {
    var w, all := Word(t), s + [c];
    assert w[|w| - 1] == all[..|w|][|w| - 1];
    assert |w| <= |s|;
    assert s[..|w|] == all[..|w|];
    assert all[|w|..][..|s| - |w|] == s[|w|..];
  }

  lemma NumberBeforeSpace(fc: Strconv, s: string, c: char)
    requires IsSpace(c) && NextNumber(fc, s + [c]).Some?
    ensures var (t, rest) := NextNumber(fc, s + [c]).value;
            rest != "" && rest[|rest| - 1] == c && NextNumber(fc, s) == Some((t, rest[..|rest| - 1]))
  {
    MunchBeforeSpace(Start, s, c);
    var n := NumberLength(s).value;
    assert (s + [c])[..n] == s[..n] && (s + [c])[n..] == s[n..] + [c];
    assert (s[n..] + [c])[..|s| - n] == s[n..];
  }

  lemma TokenBeforeSpace(fc: Strconv, s: string, c: char)
    requires s != "" && IsSpace(c) && Next(fc, s + [c]).Some?
    ensures var (t, rest) := Next(fc, s + [c]).value;
            rest != "" && rest[|rest| - 1] == c && Next(fc, s) == Some((t, rest[..|rest| - 1]))
  {
    var t := s + [c];
    assert t[0] == s[0] && t[1..] == s[1..] + [c];
    if PunctuationAt(s[0]).Some? {
      assert t[1..][..|s| - 1] == s[1..];
    } else if WordAt(s[0]).Some? {
      WordBeforeSpace(WordAt(s[0]).value, s, c);
    } else if s[0] == '"' {
      StringBeforeSpace(s[1..], c);
    } else {
      NumberBeforeSpace(fc, s, c);
    }
  }

  /** A text that lexes still lexes to the same tokens without its last character, if that is a space. */
  lemma {:induction false} LexBeforeSpace(fc: Strconv, s: string, c: char)
    requires IsSpace(c) && Lex(fc, s + [c]).Some?
    ensures Lex(fc, s) == Lex(fc, s + [c])
    decreases |s|
  {
    var t := s + [c];
    if s == "" {
      assert t == [c];
    } else if IsBlank(s[0]) {
      assert t[1..] == s[1..] + [c];
      LexBeforeSpace(fc, s[1..], c);
    } else {
      TokenBeforeSpace(fc, s, c);
      var rest := Next(fc, t).value.1;
      var kept := rest[..|rest| - 1];
      assert rest == kept + [c];
      LexBeforeSpace(fc, kept, c);
    }
  }
}
