/**
  JSON texts as RFC 8259 writes them, spelled out character by character and apart from the
  lexer: blanks (section 2), literal names (section 3), numbers (section 6) and strings
  (section 7).  The parser accepts exactly these texts and reads them as written.
 */
module JsonGrammar {
  import opened Wrappers
  import opened JsonLexer
  import opened Json

  predicate AllIn(s: string, cs: string) { forall i | 0 <= i < |s| :: s[i] in cs }

  predicate Blanks(s: string) { AllIn(s, " \t\n\r") }

  // ---------------------------------------------------------------- cutting texts

  lemma DropAhead(x: string, k: nat, end: string)
    requires k <= |x|
    ensures (x + end)[k..] == x[k..] + end
  {
  }

  lemma Unquote(x: string, tail: string)
    requires |x| >= 2 && x[|x| - 1] == '\"'
    ensures (x + tail)[1..] == x[1..|x| - 1] + ("\"" + tail)
  {
  }

  lemma Quoted(x: string, body: string, rest: string)
    requires x != "" && x[0] == '\"' && x[1..] == body + ("\"" + rest)
    ensures var n := |body| + 2;
            |x| == n + |rest| && x[..n] == "\"" + body + "\"" && x[n..] == rest && x[..n][1..n - 1] == body
  {
    assert x == ("\"" + body + "\"") + rest;
  }

  lemma Enclosed(body: string)
    ensures var x := "\"" + body + "\"";
            |x| >= 2 && x[0] == '\"' && x[|x| - 1] == '\"' && x[1..|x| - 1] == body
  {
  }

  lemma Front(y: string, k: nat, b: string, end: string)
    requires k <= |y| && y[k..] == b + end
    ensures y == y[..k + |b|] + end && y[..k + |b|][k..] == b
  {
  }

  lemma Nested(a: seq<Token>, b: seq<Token>, c: seq<Token>, d: seq<Token>, e: seq<Token>, f: seq<Token>)
    ensures a + (b + (c + (d + e + f))) == a + b + (c + d) + e + f
  {
  }

  lemma Rejoined(x: string, i: nat, j: nat)
    requires i <= j <= |x|
    ensures x[..i] + (x[i..j] + x[j..]) == x
  {
  }

  lemma Refit(x: string, rest: string)
    requires |rest| <= |x| && x[|x| - |rest|..] == rest
    ensures "" + x[..|x| - |rest|] + rest == x
  {
  }

  lemma Cut(b: string, x: string, tail: string)
    ensures var y, i, j := b + x + tail, |b|, |b| + |x|;
            y[..i] == b && y[i..j] == x && y[j..] == tail
  {
  }

  lemma Shifted(c: char, x: string, i: nat, j: nat)
    requires i <= j <= |x|
    ensures var y := [c] + x;
            y[..i + 1] == [c] + x[..i] && y[i + 1..j + 1] == x[i..j] && y[j + 1..] == x[j..]
  {
  }

  // ---------------------------------------------------------------- numbers

  function AfterDigits(s: string): (r: string)
    ensures |r| <= |s|
  {
    if s != "" && s[0] in "0123456789" then AfterDigits(s[1..]) else s
  }

  /** What follows one or more digits. */
  function AfterSomeDigits(s: string): Option<string> {
    if s != "" && s[0] in "0123456789" then Some(AfterDigits(s)) else None
  }

  function AfterExponent(s: string): Option<string> {
    if s == "" || s[0] !in "eE" then Some(s)
    else if |s| > 1 && s[1] in "+-" then AfterSomeDigits(s[2..])
    else AfterSomeDigits(s[1..])
  }

  function AfterFraction(s: string): Option<string> {
    if s == "" || s[0] != '.' then AfterExponent(s)
    else
      match AfterSomeDigits(s[1..])
      case None => None
      case Some(r) => AfterExponent(r)
  }

  function AfterInteger(s: string): Option<string> {
    if s == "" then None
    else if s[0] == '0' then AfterFraction(s[1..])
    else if s[0] in "123456789" then AfterFraction(AfterDigits(s))
    else None
  }

  /** What follows the longest number at the head of `s`. */
  function AfterNumber(s: string): Option<string> {
    if s != "" && s[0] == '-' then AfterInteger(s[1..]) else AfterInteger(s)
  }

  predicate NumberText(s: string) { AfterNumber(s) == Some("") }

  /** What the scanner leaves. */
  function Left(st: Scan, s: string): Option<string> {
    match Munch(st, s)
    case None => None
    case Some(n) => Some(s[n..])
  }

  lemma LeftStep(st: Scan, s: string)
    requires s != "" && Advance(st, s[0]).Some?
    ensures Left(st, s) == Left(Advance(st, s[0]).value, s[1..])
  {
    var m := Munch(Advance(st, s[0]).value, s[1..]);
    if m.Some? { assert s[1..][m.value..] == s[m.value + 1..]; }
  }

  lemma DigitsLiteral(c: char)
    ensures c in "0123456789" <==> '0' <= c <= '9'
    ensures c in "123456789" <==> '1' <= c <= '9'
  {
    if '0' <= c <= '9' {
      assert "0123456789"[c as int - '0' as int] == c;
      if c != '0' { assert "123456789"[c as int - '1' as int] == c; }
    }
  }

  lemma {:induction false} LeftPower(s: string)
    ensures Left(Power, s) == Some(AfterDigits(s))
  {
    if s != "" {
      DigitsLiteral(s[0]);
      if Advance(Power, s[0]).Some? {
        LeftStep(Power, s);
        LeftPower(s[1..]);
      }
    }
  }

  lemma LeftSign(s: string)
    ensures Left(Sign, s) == AfterSomeDigits(s)
  {
    if s != "" {
      DigitsLiteral(s[0]);
      LeftPower(s[1..]);
      if Advance(Sign, s[0]).Some? { LeftStep(Sign, s); }
    }
  }

  lemma LeftExponent(s: string)
    ensures Left(Exponent, s) == if s != "" && s[0] in "+-" then AfterSomeDigits(s[1..]) else AfterSomeDigits(s)
  {
    if s != "" {
      DigitsLiteral(s[0]);
      SignLiteral(s[0]);
      if Advance(Exponent, s[0]).Some? {
        LeftStep(Exponent, s);
        LeftPower(s[1..]);
        LeftSign(s[1..]);
      }
    }
  }

  lemma SignLiteral(c: char)
    ensures c in "+-" <==> c == '+' || c == '-'
  {
    assert "+-"[0] == '+' && "+-"[1] == '-';
  }

  lemma {:induction false} LeftFraction(s: string)
    ensures Left(Fraction, s) == AfterExponent(AfterDigits(s))
  {
    if s != "" {
      DigitsLiteral(s[0]);
      LeftExponent(s[1..]);
      if Advance(Fraction, s[0]).Some? {
        LeftStep(Fraction, s);
        if s[0] in "0123456789" { LeftFraction(s[1..]); }
      }
    }
  }

  lemma LeftPoint(s: string)
    ensures Left(Point, s) ==
            match AfterSomeDigits(s) case None => None case Some(r) => AfterExponent(r)
  {
    if s != "" {
      DigitsLiteral(s[0]);
      LeftFraction(s[1..]);
      if Advance(Point, s[0]).Some? { LeftStep(Point, s); }
    }
  }

  lemma LeftZero(s: string)
    ensures Left(Zero, s) == AfterFraction(s)
  {
    if s != "" {
      LeftExponent(s[1..]);
      LeftPoint(s[1..]);
      if Advance(Zero, s[0]).Some? { LeftStep(Zero, s); }
    }
  }

  lemma {:induction false} LeftWhole(s: string)
    ensures Left(Whole, s) == AfterFraction(AfterDigits(s))
  {
    if s != "" {
      DigitsLiteral(s[0]);
      LeftExponent(s[1..]);
      LeftPoint(s[1..]);
      if Advance(Whole, s[0]).Some? {
        LeftStep(Whole, s);
        if s[0] in "0123456789" { LeftWhole(s[1..]); }
      }
    }
  }

  lemma LeftInteger(s: string)
    ensures Left(Minus, s) == AfterInteger(s)
    ensures s == "" || s[0] != '-' ==> Left(Start, s) == AfterInteger(s)
  {
    if s != "" {
      DigitsLiteral(s[0]);
      LeftZero(s[1..]);
      LeftWhole(s[1..]);
      if Advance(Minus, s[0]).Some? { LeftStep(Minus, s); }
      if Advance(Start, s[0]).Some? { LeftStep(Start, s); }
    }
  }

  /** The scanner takes exactly the number that the grammar finds. */
  lemma NumberScanned(s: string)
    ensures Left(Start, s) == AfterNumber(s)
    ensures IsNumber(s) <==> NumberText(s)
  {
    LeftInteger(s);
    if s != "" && s[0] == '-' {
      LeftStep(Start, s);
      LeftInteger(s[1..]);
    }
    var n := NumberLength(s);
    if n.Some? { assert s[n.value..] == "" <==> n.value == |s|; }
  }

  // ---------------------------------------------------------------- strings

  /** Either case of the hexadecimal digit `n`. */
  predicate HexDigit(n: int, c: char) {
    0 <= n < 16 && (c == "0123456789abcdef"[n] || c == "0123456789ABCDEF"[n])
  }

  /** The text starts with the escape of the code unit `v`, such as \u00e9 or \u00E9. */
  predicate UnitEscape(v: int, x: string) {
    && |x| >= 6 && x[0] == '\\' && x[1] == 'u'
    && HexDigit(v / 4096, x[2]) && HexDigit(v / 256 % 16, x[3])
    && HexDigit(v / 16 % 16, x[4]) && HexDigit(v % 16, x[5])
  }

  /** The two-character escapes. */
  predicate ShortEscape(c: char, x: string) {
    && |x| >= 2
    && (x[..2], c) in {
         ("\\\"", '\"'), ("\\\\", '\\'), ("\\/", '/'), ("\\b", '\U{0008}'), ("\\f", '\U{000C}'),
         ("\\n", '\n'), ("\\r", '\r'), ("\\t", '\t')
       }
  }

  ghost predicate LowFollows(x: string) {
    exists v | 0xDC00 <= v < 0xE000 :: UnitEscape(v, x)
  }

  ghost predicate LoneSurrogate(x: string) {
    || (exists v | 0xD800 <= v < 0xDC00 :: UnitEscape(v, x) && !LowFollows(x[6..]))
    || LowFollows(x)
  }

  /** A surrogate pair: a character beyond U+FFFF in two code units. */
  ghost predicate Pair(x: string, c: char) {
    && |x| >= 12
    && exists high, low | 0xD800 <= high < 0xDC00 && 0xDC00 <= low < 0xE000 ::
         && UnitEscape(high, x) && UnitEscape(low, x[6..])
         && c as int == 0x10000 + (high - 0xD800) * 0x400 + (low - 0xDC00)
  }

  /** The first `k` characters of a string body stand for the character `c`. */
  ghost predicate Stands(x: string, k: int, c: char) {
    || (k == 1 && x != "" && x[0] == c && c >= '\U{0020}' && c != '\"' && c != '\\')
    || (k == 2 && ShortEscape(c, x))
    || (k == 6 && c as int < 0x10000 && UnitEscape(c as int, x))
    || (k == 6 && c == '\U{FFFD}' && LoneSurrogate(x))
    || (k == 12 && Pair(x, c))
  }

  /** What stands between the quotes of a string literal that denotes `s`. */
  ghost predicate Body(x: string, s: string)
    decreases |s|
  {
    if s == "" then x == ""
    else exists k | 0 < k <= |x| :: Stands(x, k, s[0]) && Body(x[k..], s[1..])
  }

  lemma HexDigitRead(n: int, c: char)
    requires 0 <= n < 16
    ensures HexDigit(n, c) <==> HexValue(c) == n
  {
  }

  lemma LastDigit(v: int, q: int, d: int)
    requires 0 <= d < 16
    ensures v == q * 16 + d <==> v / 16 == q && v % 16 == d
  {
  }

  lemma FourDigits(v: int, a: int, b: int, c: int, d: int)
    requires 0 <= a < 16 && 0 <= b < 16 && 0 <= c < 16 && 0 <= d < 16
    ensures v == ((a * 16 + b) * 16 + c) * 16 + d <==>
            v / 4096 == a && v / 256 % 16 == b && v / 16 % 16 == c && v % 16 == d
  {
    LastDigit(v, (a * 16 + b) * 16 + c, d);
    LastDigit(v / 16, a * 16 + b, c);
    LastDigit(v / 16 / 16, a, b);
    assert v / 16 / 16 == v / 256 && v / 16 / 16 / 16 == v / 4096;
  }

  lemma UnitRead(v: int, x: string)
    requires 0 <= v < 0x10000 && |x| >= 2 && x[0] == '\\' && x[1] == 'u'
    ensures UnitEscape(v, x) <==> Hex4(x[2..]) == v
  {
    if |x| >= 6 {
      HexDigitRead(v / 4096, x[2]);
      HexDigitRead(v / 256 % 16, x[3]);
      HexDigitRead(v / 16 % 16, x[4]);
      HexDigitRead(v % 16, x[5]);
      var y := x[2..];
      if Hex4(y) >= 0 { FourDigits(v, HexValue(y[0]), HexValue(y[1]), HexValue(y[2]), HexValue(y[3])); }
    }
  }

  lemma LowRead(x: string)
    ensures LowFollows(x) <==> 0xDC00 <= NextUnit(x) < 0xE000
  {
    if |x| >= 2 && x[0] == '\\' && x[1] == 'u' {
      if 0xDC00 <= NextUnit(x) < 0xE000 { UnitRead(NextUnit(x), x); }
      if LowFollows(x) {
        var v :| 0xDC00 <= v < 0xE000 && UnitEscape(v, x);
        UnitRead(v, x);
      }
    }
  }

  /** At most one code unit is escaped at the head of a text. */
  lemma UnitIs(x: string)
    requires |x| >= 2 && x[0] == '\\' && x[1] == 'u'
    ensures forall v | 0 <= v < 0x10000 :: UnitEscape(v, x) <==> Hex4(x[2..]) == v
  {
    forall v | 0 <= v < 0x10000 ensures UnitEscape(v, x) <==> Hex4(x[2..]) == v { UnitRead(v, x); }
  }

  lemma PairRead(x: string, c: char)
    requires |x| >= 6 && x[0] == '\\' && x[1] == 'u'
    ensures var high, low := Hex4(x[2..]), NextUnit(x[6..]);
            Pair(x, c) <==> 0xD800 <= high < 0xDC00 && 0xDC00 <= low < 0xE000 &&
                            c as int == 0x10000 + (high - 0xD800) * 0x400 + (low - 0xDC00)
  {
    UnitIs(x);
    var high, low := Hex4(x[2..]), NextUnit(x[6..]);
    if |x| >= 12 && x[6] == '\\' && x[7] == 'u' {
      UnitIs(x[6..]);
      if 0xD800 <= high < 0xDC00 && 0xDC00 <= low < 0xE000 {
        assert UnitEscape(high, x) && UnitEscape(low, x[6..]);
      }
    }
  }

  /** What the lexer makes of a code unit escape. */
  lemma UnitChar(x: string)
    requires |x| >= 6 && x[0] == '\\' && x[1] == 'u' && Hex4(x[2..]) >= 0
    ensures var unit, second := Hex4(x[2..]), NextUnit(x[6..]);
            StringChar(x) ==
            if unit < 0xD800 || 0xE000 <= unit then Some((unit as char, x[6..]))
            else if unit < 0xDC00 && 0xDC00 <= second < 0xE000 then
              Some(((0x10000 + (unit - 0xD800) * 0x400 + (second - 0xDC00)) as char, x[12..]))
            else Some(('\U{FFFD}', x[6..]))
  {
    assert x[1..][1..] == x[2..] && x[1..][5..] == x[6..];
    if |x| >= 12 { assert x[1..][11..] == x[12..]; }
  }

  lemma LoneRead(x: string)
    requires |x| >= 6 && x[0] == '\\' && x[1] == 'u' && Hex4(x[2..]) >= 0
    ensures var unit, second := Hex4(x[2..]), NextUnit(x[6..]);
            LoneSurrogate(x) <==> 0xD800 <= unit < 0xE000 && !(unit < 0xDC00 && 0xDC00 <= second < 0xE000)
  {
    var unit := Hex4(x[2..]);
    UnitIs(x);
    LowRead(x);
    LowRead(x[6..]);
    if 0xD800 <= unit < 0xE000 { assert UnitEscape(unit, x); }
  }

  /** A code unit escape stands for what the lexer makes of it. */
  lemma UnitStands(x: string, k: nat, c: char)
    requires |x| >= 6 && x[0] == '\\' && x[1] == 'u' && Hex4(x[2..]) >= 0 && 0 < k <= |x|
    ensures Stands(x, k, c) <==> StringChar(x) == Some((c, x[k..]))
  {
    UnitChar(x);
    LoneRead(x);
    PairRead(x, c);
    if c as int < 0x10000 { UnitRead(c as int, x); }
    assert !ShortEscape(c, x);
  }

  lemma StandsRead(x: string, k: nat, c: char)
    requires 0 < k <= |x|
    ensures Stands(x, k, c) <==> x[0] >= '\U{0020}' && x[0] != '\"' && StringChar(x) == Some((c, x[k..]))
  {
    if |x| >= 2 && x[0] == '\\' && x[1] == 'u' {
      assert x[1..][1..] == x[2..];
      if Hex4(x[2..]) >= 0 { UnitStands(x, k, c); } else { UnitIs(x); }
    } else if x[0] == '\\' {
      if |x| >= 2 { assert x[1..][1..] == x[2..] && x[..2] == [x[0], x[1]]; }
    }
  }

  lemma EscapeAhead(v: int, x: string, tail: string)
    ensures UnitEscape(v, x) <==> UnitEscape(v, x + ("\"" + tail))
  {
    var y := x + ("\"" + tail);
    if |x| < 6 {
      assert y[|x|] == '\"';
    }
  }

  lemma LowAhead(x: string, tail: string)
    ensures LowFollows(x) <==> LowFollows(x + ("\"" + tail))
  {
    var y := x + ("\"" + tail);
    forall v | 0xDC00 <= v < 0xE000 ensures UnitEscape(v, x) <==> UnitEscape(v, y) { EscapeAhead(v, x, tail); }
    if LowFollows(y) {
      var v :| 0xDC00 <= v < 0xE000 && UnitEscape(v, y);
      assert UnitEscape(v, x);
    }
    if LowFollows(x) {
      var v :| 0xDC00 <= v < 0xE000 && UnitEscape(v, x);
      assert UnitEscape(v, y);
    }
  }

  lemma LoneAhead(x: string, tail: string)
    requires |x| >= 6
    ensures LoneSurrogate(x) <==> LoneSurrogate(x + ("\"" + tail))
  {
    var y := x + ("\"" + tail);
    assert y[6..] == x[6..] + ("\"" + tail);
    LowAhead(x, tail);
    LowAhead(x[6..], tail);
    forall v ensures UnitEscape(v, x) <==> UnitEscape(v, y) { EscapeAhead(v, x, tail); }
  }

  lemma PairAhead(x: string, c: char, tail: string)
    requires |x| >= 12
    ensures Pair(x, c) <==> Pair(x + ("\"" + tail), c)
  {
    var y := x + ("\"" + tail);
    assert y[6..] == x[6..] + ("\"" + tail);
    forall v ensures UnitEscape(v, x) <==> UnitEscape(v, y) { EscapeAhead(v, x, tail); }
    forall v ensures UnitEscape(v, x[6..]) <==> UnitEscape(v, y[6..]) { EscapeAhead(v, x[6..], tail); }
  }

  /** The closing quote and what comes after it decide nothing about the character before. */
  lemma StandsAhead(x: string, k: int, c: char, tail: string)
    requires 0 < k <= |x|
    ensures Stands(x, k, c) <==> Stands(x + ("\"" + tail), k, c)
  {
    var y := x + ("\"" + tail);
    if k == 2 {
      assert y[..2] == x[..2];
    } else if k == 6 {
      EscapeAhead(c as int, x, tail);
      LoneAhead(x, tail);
    } else if k == 12 {
      PairAhead(x, c, tail);
    }
  }

  lemma StandsScanned(x: string, k: int, c: char, cs: string, tail: string)
    requires 0 < k <= |x| && Stands(x, k, c) && ScanString(x[k..] + ("\"" + tail)) == Some((cs, tail))
    ensures ScanString(x + ("\"" + tail)) == Some(([c] + cs, tail))
  {
    StandsAhead(x, k, c, tail);
    StandsRead(x + ("\"" + tail), k, c);
    DropAhead(x, k, "\"" + tail);
  }

  lemma {:induction false} BodyScanned(x: string, s: string, tail: string)
    requires Body(x, s)
    ensures ScanString(x + ("\"" + tail)) == Some((s, tail))
    decreases |s|
  {
    if s == "" {
      assert (x + ("\"" + tail))[1..] == tail;
    } else {
      var k :| 0 < k <= |x| && Stands(x, k, s[0]) && Body(x[k..], s[1..]);
      BodyScanned(x[k..], s[1..], tail);
      StandsScanned(x, k, s[0], s[1..], tail);
      assert [s[0]] + s[1..] == s;
    }
  }

  lemma BodyStep(x: string, k: int, c: char, s: string)
    requires 0 < k <= |x| && Stands(x, k, c) && Body(x[k..], s)
    ensures Body(x, [c] + s)
  {
    var t := [c] + s;
    assert t[0] == c && t[1..] == s;
  }

  lemma StandsFront(x: string, k: int, c: char, tail: string)
    requires 0 < k <= |x|
    requires var y := x + ("\"" + tail);
             y[0] >= '\U{0020}' && y[0] != '\"' && StringChar(y) == Some((c, y[k..]))
    ensures Stands(x, k, c)
  {
    StandsRead(x + ("\"" + tail), k, c);
    StandsAhead(x, k, c, tail);
  }

  lemma CharTaken(y: string)
    requires y != "" && StringChar(y).Some?
    ensures var rest := StringChar(y).value.1;
            rest == y[|y| - |rest|..]
  {
    if y[0] == '\\' {
      var z := y[1..];
      assert z[1..] == y[2..];
      if |z| >= 5 { assert z[5..] == y[6..]; }
      if |z| >= 11 { assert z[11..] == y[12..]; }
    }
  }

  lemma ScannedStep(y: string, after: string, m: nat, c: char, cs: string, rest: string)
    requires y != "" && y[0] >= '\U{0020}' && y[0] != '\"' && StringChar(y) == Some((c, after))
    requires |after| == m + 1 + |rest| && after == after[..m] + ("\"" + rest) && Body(after[..m], cs)
    ensures var n := |y| - |rest| - 1;
            y == y[..n] + ("\"" + rest) && Body(y[..n], [c] + cs)
  {
    CharTaken(y);
    var k := |y| - |after|;
    Front(y, k, after[..m], "\"" + rest);
    var x := y[..k + m];
    assert StringChar(y) == Some((c, y[k..]));
    StandsFront(x, k, c, rest);
    BodyStep(x, k, c, cs);
  }

  lemma {:induction false} ScannedBody(y: string)
    requires ScanString(y).Some?
    ensures var (s, rest) := ScanString(y).value;
            var n := |y| - |rest| - 1;
            y == y[..n] + ("\"" + rest) && Body(y[..n], s)
    decreases |y|
  {
    if y[0] == '\"' {
      assert y == [y[0]] + y[1..];
    } else {
      var (c, after) := StringChar(y).value;
      var (cs, rest) := ScanString(after).value;
      ScannedBody(after);
      ScannedStep(y, after, |after| - |rest| - 1, c, cs, rest);
    }
  }

  /** What a printer has to escape, and what `json.Marshal` escapes besides. */
  predicate Escaped(c: char) {
    || c < '\U{0020}' || c == '\"' || c == '\\'
    || c == '<' || c == '>' || c == '&' || c == '\U{2028}' || c == '\U{2029}'
  }

  lemma EscapedOne(c: char)
    ensures if Escaped(c) then |Escape(c)| >= 2 else Escape(c) == [c]
  {
  }

  lemma EscapedBody(s: string)
    ensures Body(EscapeAll(s), s)
  {
    var x := EscapeAll(s);
    StringUndone(s, "");
    ScannedBody(x + ("\"" + ""));
    Cut("", x, "\"" + "");
  }

  lemma {:induction false} EscapedPlain(s: string)
    ensures |EscapeAll(s)| >= |s|
    ensures EscapeAll(s) == s <==> forall c | c in s :: !Escaped(c)
  {
    if s != "" {
      EscapedPlain(s[1..]);
      EscapedOne(s[0]);
      assert s == [s[0]] + s[1..];
      if !Escaped(s[0]) {
        assert EscapeAll(s)[1..] == EscapeAll(s[1..]);
      }
    }
  }

  /** The printer spells every string correctly, and escapes those characters and no others. */
  lemma EscapedText(s: string)
    ensures Body(EscapeAll(s), s)
    ensures EscapeAll(s) == s <==> forall c | c in s :: !Escaped(c)
  {
    EscapedBody(s);
    EscapedPlain(s);
  }

  /** The text is a string literal that denotes `s`. */
  ghost predicate StringText(x: string, s: string) {
    |x| >= 2 && x[0] == '\"' && x[|x| - 1] == '\"' && Body(x[1..|x| - 1], s)
  }

  lemma StringRead(x: string, s: string, tail: string)
    requires StringText(x, s)
    ensures x != "" && x[0] == '\"' && ScanString((x + tail)[1..]) == Some((s, tail))
  {
    Unquote(x, tail);
    BodyScanned(x[1..|x| - 1], s, tail);
  }

  lemma StringTaken(x: string, s: string, rest: string)
    requires x != "" && x[0] == '\"' && ScanString(x[1..]) == Some((s, rest))
    ensures var n := |x| - |rest|;
            n >= 0 && x[n..] == rest && StringText(x[..n], s)
  {
    var y := x[1..];
    ScannedBody(y);
    StringClosed(x, y[..|y| - |rest| - 1], s, rest);
  }

  lemma StringClosed(x: string, body: string, s: string, rest: string)
    requires x != "" && x[0] == '\"' && x[1..] == body + ("\"" + rest) && Body(body, s)
    ensures var n := |x| - |rest|;
            n >= 0 && x[n..] == rest && StringText(x[..n], s)
  {
    Quoted(x, body, rest);
  }

  // ---------------------------------------------------------------- tokens

  /** The text is a way to write the token. */
  ghost predicate TokenText(fc: Strconv, x: string, t: Token) {
    match t
    case LBrace => x == "{"
    case RBrace => x == "}"
    case LBracket => x == "["
    case RBracket => x == "]"
    case Colon => x == ":"
    case Comma => x == ","
    case True => x == "true"
    case False => x == "false"
    case Null => x == "null"
    case Text(s) => StringText(x, s)
    case Number(f) => NumberText(x) && fc.parse(x) == Some(f)
  }

  /** The text writes the tokens one after the other, with any blanks before, between and after them. */
  ghost predicate Written(fc: Strconv, x: string, ts: seq<Token>)
    decreases |ts|
  {
    if ts == [] then Blanks(x)
    else
      exists i, j | 0 <= i <= j <= |x| ::
        Blanks(x[..i]) && TokenText(fc, x[i..j], ts[0]) && Written(fc, x[j..], ts[1..])
  }

  /** The same without any blanks. */
  ghost predicate Packed(fc: Strconv, x: string, ts: seq<Token>)
    decreases |ts|
  {
    if ts == [] then x == ""
    else exists j | 0 <= j <= |x| :: TokenText(fc, x[..j], ts[0]) && Packed(fc, x[j..], ts[1..])
  }

  lemma SpelledText(fc: Strconv, t: Token)
    ensures TokenText(fc, Spell(fc, t), t)
  {
    match t
    case Text(s) =>
      EscapedBody(s);
      Enclosed(EscapeAll(s));
    case Number(f) =>
      assert IsNumber(fc.format(f));
      NumberScanned(fc.format(f));
    case _ =>
  }

  /** Rendering spells every token and puts nothing between them. */
  lemma {:induction false} RenderPacked(fc: Strconv, ts: seq<Token>)
    ensures Packed(fc, Render(fc, ts), ts)
    decreases |ts|
  {
    if ts != [] {
      SpelledText(fc, ts[0]);
      RenderPacked(fc, ts[1..]);
      Cut("", Spell(fc, ts[0]), Render(fc, ts[1..]));
      var x, j := Render(fc, ts), |Spell(fc, ts[0])|;
      assert "" + Spell(fc, ts[0]) + Render(fc, ts[1..]) == x;
      assert TokenText(fc, x[..j], ts[0]) && Packed(fc, x[j..], ts[1..]);
    }
  }

  lemma BlankRead(c: char)
    ensures IsBlank(c) <==> c in " \t\n\r"
  {
    assert " \t\n\r"[0] == ' ' && " \t\n\r"[1] == '\t' && " \t\n\r"[2] == '\n' && " \t\n\r"[3] == '\r';
  }

  lemma {:induction false} BlanksSkipped(fc: Strconv, b: string, x: string)
    requires Blanks(b)
    ensures Lex(fc, b + x) == Lex(fc, x)
  {
    if b == "" {
      assert b + x == x;
    } else {
      BlankRead(b[0]);
      assert (b + x)[1..] == b[1..] + x;
      BlanksSkipped(fc, b[1..], x);
    }
  }

  lemma TokenRead(fc: Strconv, x: string, t: Token, tail: string)
    requires TokenText(fc, x, t) && (t.Number? ==> EndsNumber(tail))
    ensures x != "" && !IsBlank(x[0]) && Next(fc, x + tail) == Some((t, tail))
  {
    if t.Text? {
      TextRead(fc, x, t.s, tail);
    } else if t.Number? {
      NumberRead(fc, x, t.f, tail);
    } else {
      FixedRead(fc, x, t, tail);
    }
  }

  lemma TextRead(fc: Strconv, x: string, s: string, tail: string)
    requires StringText(x, s)
    ensures x != "" && !IsBlank(x[0]) && Next(fc, x + tail) == Some((Text(s), tail))
  {
    StringRead(x, s, tail);
    assert (x + tail)[0] == '\"';
  }

  lemma FixedRead(fc: Strconv, x: string, t: Token, tail: string)
    requires TokenText(fc, x, t) && !t.Text? && !t.Number?
    ensures x != "" && !IsBlank(x[0]) && Next(fc, x + tail) == Some((t, tail))
  {
    assert x == Spell(fc, t);
    SpellUndone(fc, t, tail);
  }

  lemma NumberRead(fc: Strconv, x: string, f: Float, tail: string)
    requires NumberText(x) && fc.parse(x) == Some(f) && EndsNumber(tail)
    ensures x != "" && !IsBlank(x[0]) && Next(fc, x + tail) == Some((Number(f), tail))
  {
    NumberScanned(x);
    MunchAppend(Start, x, tail);
    assert (x + tail)[..|x|] == x && (x + tail)[|x|..] == tail;
  }

  lemma NumberTaken(fc: Strconv, x: string)
    requires NextNumber(fc, x).Some?
    ensures var (t, rest) := NextNumber(fc, x).value;
            var n := |x| - |rest|;
            t.Number? && x[n..] == rest && TokenText(fc, x[..n], t)
  {
    var n := NumberLength(x).value;
    MunchFront(Start, x);
    NumberScanned(x[..n]);
  }

  /** What the scanner takes it takes again when nothing follows. */
  lemma {:induction false} MunchFront(st: Scan, x: string)
    requires Munch(st, x).Some?
    ensures var n := Munch(st, x).value;
            Munch(st, x[..n]) == Some(n)
    decreases |x|
  {
    if x != "" && Advance(st, x[0]).Some? {
      MunchFront(Advance(st, x[0]).value, x[1..]);
      var n := Munch(st, x).value;
      assert x[..n][1..] == x[1..][..n - 1];
    }
  }

  lemma TokenTaken(fc: Strconv, x: string)
    requires x != "" && Next(fc, x).Some?
    ensures var (t, rest) := Next(fc, x).value;
            var n := |x| - |rest|;
            x[n..] == rest && TokenText(fc, x[..n], t)
  {
    if PunctuationAt(x[0]).Some? {
      assert x[..1] == [x[0]];
    } else if WordAt(x[0]).Some? {
      WordTaken(WordAt(x[0]).value, x);
    } else if x[0] == '\"' {
      var (s, rest) := ScanString(x[1..]).value;
      StringTaken(x, s, rest);
    } else {
      NumberTaken(fc, x);
    }
  }

  lemma WordTaken(t: Token, x: string)
    requires NextWord(t, x).Some?
    ensures var rest := NextWord(t, x).value.1;
            x[|x| - |rest|..] == rest && x[..|x| - |rest|] == Word(t)
  {
  }

  /** A number token is told apart from what comes after it. */
  lemma TailEndsNumber(fc: Strconv, x: string, ts: seq<Token>)
    requires Written(fc, x, ts) && (ts != [] ==> ts[0].Punctuation())
    ensures EndsNumber(x)
  {
    if x != "" {
      if ts == [] {
        BlankRead(x[0]);
      } else {
        var i, j :| 0 <= i <= j <= |x|
                    && Blanks(x[..i]) && TokenText(fc, x[i..j], ts[0]) && Written(fc, x[j..], ts[1..]);
        if i > 0 {
          assert x[..i][0] == x[0];
          BlankRead(x[0]);
        } else {
          assert x[i..j][0] == x[0];
        }
      }
    }
  }

  lemma TokenLexed(fc: Strconv, b: string, x: string, t: Token, tail: string)
    requires Blanks(b) && TokenText(fc, x, t) && (t.Number? ==> EndsNumber(tail)) && Lex(fc, tail).Some?
    ensures Lex(fc, b + (x + tail)) == Some([t] + Lex(fc, tail).value)
  {
    BlanksSkipped(fc, b, x + tail);
    TokenRead(fc, x, t, tail);
  }

  /** The lexer reads every way to write tokens, if numbers are told apart. */
  lemma {:induction false} WrittenLexes(fc: Strconv, x: string, ts: seq<Token>)
    requires Written(fc, x, ts) && Spaced(ts)
    ensures Lex(fc, x) == Some(ts)
    decreases |ts|
  {
    if ts == [] {
      BlanksSkipped(fc, x, "");
      assert x + "" == x;
    } else {
      var i, j :| 0 <= i <= j <= |x|
                  && Blanks(x[..i]) && TokenText(fc, x[i..j], ts[0]) && Written(fc, x[j..], ts[1..]);
      SpacedRest(ts);
      if ts[0].Number? { TailEndsNumber(fc, x[j..], ts[1..]); }
      WrittenLexes(fc, x[j..], ts[1..]);
      TokenLexed(fc, x[..i], x[i..j], ts[0], x[j..]);
      Rejoined(x, i, j);
      assert [ts[0]] + ts[1..] == ts;
    }
  }

  lemma SpacedRest(ts: seq<Token>)
    requires Spaced(ts) && ts != []
    ensures Spaced(ts[1..])
    ensures ts[0].Number? && |ts| > 1 ==> ts[1].Punctuation()
  {
    forall i | 0 <= i < |ts[1..]| - 1 && ts[1..][i].Number? ensures ts[1..][i + 1].Punctuation() {
      assert ts[i + 1].Number?;
    }
    if ts[0].Number? && |ts| > 1 { assert ts[0 + 1].Punctuation(); }
  }

  lemma WrittenStep(fc: Strconv, b: string, x: string, t: Token, tail: string, ts: seq<Token>)
    requires Blanks(b) && TokenText(fc, x, t) && Written(fc, tail, ts)
    ensures Written(fc, b + x + tail, [t] + ts)
  {
    Cut(b, x, tail);
    assert ([t] + ts)[1..] == ts;
    var y, i, j := b + x + tail, |b|, |b| + |x|;
    assert Blanks(y[..i]) && TokenText(fc, y[i..j], t) && Written(fc, y[j..], ts);
  }

  lemma BlankStep(fc: Strconv, c: char, x: string, ts: seq<Token>)
    requires c in " \t\n\r" && Written(fc, x, ts)
    ensures Written(fc, [c] + x, ts)
  {
    var y := [c] + x;
    if ts != [] {
      var i, j :| 0 <= i <= j <= |x|
                  && Blanks(x[..i]) && TokenText(fc, x[i..j], ts[0]) && Written(fc, x[j..], ts[1..]);
      Shifted(c, x, i, j);
      assert Blanks(y[..i + 1]) && TokenText(fc, y[i + 1..j + 1], ts[0]) && Written(fc, y[j + 1..], ts[1..]);
    }
  }

  lemma TokenWritten(fc: Strconv, x: string, ts: seq<Token>)
    requires x != "" && Next(fc, x).Some? && Written(fc, Next(fc, x).value.1, ts)
    ensures Written(fc, x, [Next(fc, x).value.0] + ts)
  {
    TokenTaken(fc, x);
    var (t, rest) := Next(fc, x).value;
    WrittenStep(fc, "", x[..|x| - |rest|], t, rest, ts);
    Refit(x, rest);
  }

  /** What the lexer reads is written there. */
  lemma {:induction false} LexedWritten(fc: Strconv, x: string)
    requires Lex(fc, x).Some?
    ensures Written(fc, x, Lex(fc, x).value)
    decreases |x|
  {
    if x != "" {
      BlankRead(x[0]);
      if IsBlank(x[0]) {
        LexedWritten(fc, x[1..]);
        BlankStep(fc, x[0], x[1..], Lex(fc, x).value);
        assert [x[0]] + x[1..] == x;
      } else {
        var (t, rest) := Next(fc, x).value;
        LexedWritten(fc, rest);
        TokenWritten(fc, x, Lex(fc, rest).value);
      }
    }
  }

  // ---------------------------------------------------------------- whole texts

  lemma {:induction false} ValueTaken(ts: seq<Token>)
    requires Value(ts).Some?
    ensures var (d, rest) := Value(ts).value;
            ts == Tokens(d) + rest
    decreases |ts|, 0
  {
    match ts[0]
    case LBracket =>
      if ts[1..] == [] || ts[1] != RBracket { ElementsTaken(ts[1..]); }
    case LBrace =>
      if ts[1..] == [] || ts[1] != RBrace { MembersTaken(ts[1..]); }
    case _ =>
  }

  lemma {:induction false} ElementsTaken(ts: seq<Token>)
    requires Elements(ts).Some?
    ensures var (es, rest) := Elements(ts).value;
            es != [] && ts == ElementTokens(es) + [RBracket] + rest
    decreases |ts|, 1
  {
    ValueTaken(ts);
    var (v, rest) := Value(ts).value;
    if rest[0] == Comma {
      ElementsTaken(rest[1..]);
      var (vs, after) := Elements(rest[1..]).value;
      ElementsJoined(v, vs, after);
      assert rest == [Comma] + rest[1..];
    } else {
      assert rest == [RBracket] + rest[1..];
      assert Tokens(v) + ([RBracket] + rest[1..]) == ElementTokens([v]) + [RBracket] + rest[1..];
    }
  }

  lemma ElementsJoined(v: Doc, vs: seq<Doc>, after: seq<Token>)
    requires vs != []
    ensures Tokens(v) + ([Comma] + (ElementTokens(vs) + [RBracket] + after)) ==
            ElementTokens([v] + vs) + [RBracket] + after
  {
    assert ([v] + vs)[1..] == vs;
  }

  lemma {:induction false} MembersTaken(ts: seq<Token>)
    requires Members(ts).Some?
    ensures var (ms, rest) := Members(ts).value;
            ms != [] && ts == MemberTokens(ms) + [RBrace] + rest
    decreases |ts|, 1
  {
    ValueTaken(ts[2..]);
    var (v, rest) := Value(ts[2..]).value;
    var m := Member(ts[0].s, v);
    assert ts == [Text(m.name), Colon] + (Tokens(v) + rest);
    if rest[0] == Comma {
      MembersTaken(rest[1..]);
      var (ms, after) := Members(rest[1..]).value;
      MembersJoined(m, ms, after);
      assert rest == [Comma] + rest[1..];
    } else {
      MemberLast(m, rest[1..]);
      assert rest == [RBrace] + rest[1..];
    }
  }

  lemma MemberLast(m: Member, after: seq<Token>)
    ensures [Text(m.name), Colon] + (Tokens(m.value) + ([RBrace] + after)) == MemberTokens([m]) + [RBrace] + after
  {
    assert MemberTokens([m]) == [Text(m.name), Colon] + Tokens(m.value);
  }

  lemma MembersJoined(m: Member, ms: seq<Member>, after: seq<Token>)
    requires ms != []
    ensures [Text(m.name), Colon] + (Tokens(m.value) + ([Comma] + (MemberTokens(ms) + [RBrace] + after))) ==
            MemberTokens([m] + ms) + [RBrace] + after
  {
    assert ([m] + ms)[1..] == ms;
    Nested([Text(m.name), Colon], Tokens(m.value), [Comma], MemberTokens(ms), [RBrace], after);
  }

  /**
    A text parses to `d` exactly when it writes the tokens of `d` with any blanks around them:
    numbers and strings in any of their spellings.
   */
  lemma ParsesWhatIsWritten(fc: Strconv, x: string, d: Doc)
    ensures ParseDoc(fc, x) == Some(d) <==> Written(fc, x, Tokens(d))
  {
    if Written(fc, x, Tokens(d)) {
      TokensSpaced(d);
      WrittenLexes(fc, x, Tokens(d));
      ValueUndone(d, []);
      assert Tokens(d) + [] == Tokens(d);
    }
    if ParseDoc(fc, x) == Some(d) {
      LexedWritten(fc, x);
      ValueTaken(Lex(fc, x).value);
      assert Tokens(d) + [] == Tokens(d);
    }
  }
}
