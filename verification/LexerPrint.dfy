/** The lexer undoes a printer that puts one space between well-formed lexemes. */
module LexerPrint {
  import opened Numeric
  import opened Lexer
  import opened LexerTheorems
  import opened Wrappers

  datatype Lexeme =
    | Name(first: string, more: seq<string>)
    | Numeral(digits: string)
    | Literal(body: seq<StrItem>)
    | Symbol(text: string)
    | Character(item: StrItem)
  {
    predicate Wf() {
      match this
      case Name(first, more) => IsName(first) && forall i :: 0 <= i < |more| ==> IsName(more[i])
      case Numeral(digits) => digits != "" && AllDigits(digits)
      case Literal(body) => WfBody(body)
      case Symbol(text) => SymbolKind(text) != 0
      case Character(item) => item.Bare? ==> item.c != '\\'
    }

    function Text(): string {
      match this
      case Name(first, more) => first + Dotted(more)
      case Numeral(digits) => digits
      case Literal(body) => "\"" + (BodyText(body) + "\"")
      case Symbol(text) => text
      case Character(item) => "'" + (item.Text() + "'")
    }
  }

  predicate IsName(s: string) { s != "" && IsIdentStart(s[0]) && forall i :: 0 <= i < |s| ==> IsIdentPart(s[i]) }

  function Dotted(more: seq<string>): string {
    if more == [] then "" else "." + (more[0] + Dotted(more[1..]))
  }

  /** The kind of an operator, or 0. */
  function SymbolKind(s: string): int {
    if s == "+" then 2 else if s == "-" then 3 else if s == "*" then 4 else if s == "/" then 5
    else if s == "(" then 6 else if s == ")" then 7 else if s == "{" then 8 else if s == "}" then 9
    else if s == "=" then 10 else if s == ":" then 11 else if s == "," then 12 else if s == ";" then 13
    else if s == "&" then 14 else if s == "<" then 15 else if s == ">" then 16 else if s == "?" then 17
    else if s == "=>" then 36 else if s == "!=" then 38 else if s == ">=" then 39 else if s == "==" then 40
    else if s == "<=" then 43 else if s == "[" then 44 else if s == "]" then 45 else if s == ".." then 46
    else if s == "@" then 47 else if s == "!" then 52 else 0
  }

  /** The byte a char literal denotes. */
  function CharValue(item: StrItem): int {
    match item
    case Bare(c) => c as int
    case Escape('n') => '\n' as int
    case Escape('t') => '\t' as int
    case Escape('r') => '\r' as int
    case Escape('0') => 0
    case Escape(c) => c as int
  }

  /** The kinds of the keywords; any other name has kind 30. */
  const KEYWORDS: map<string, int> := map[
    "let" := 20, "fn" := 21, "return" := 22, "if" := 23, "else" := 24, "while" := 25, "region" := 26,
    "arena" := 27, "effects" := 28, "module" := 29, "break" := 31, "import" := 32, "enum" := 33,
    "struct" := 34, "match" := 35, "for" := 41, "continue" := 42]

  function NameKind(w: string): int { if w in KEYWORDS then KEYWORDS[w] else 30 }

  lemma KeywordIsNameKind(w: string)
    ensures Keyword(w) == NameKind(w)
  {
  }

  function Print(ls: seq<Lexeme>): string {
    if ls == [] then "" else if |ls| == 1 then ls[0].Text() else ls[0].Text() + " " + Print(ls[1..])
  }

  /** The token t of the source src is the lexeme l: its kind, and its value or its slice of the source. */
  predicate Spells(src: string, t: Token, l: Lexeme)
    requires l.Wf()
  {
    match l
    case Name(_, _) => t.kind == NameKind(l.Text()) && SliceIs(src, t, l.Text())
    case Numeral(digits) => t.kind == 1 && t.len == 0 && t.val == I32(Decimal(digits))
    case Literal(body) => t.kind == 37 && SliceIs(src, t, BodyText(body))
    case Symbol(text) => text != "" && t == Token(SymbolKind(text), text[0] as int, 0)
    case Character(item) => t == Token(41, CharValue(item), 0)
  }

  predicate SliceIs(src: string, t: Token, text: string) {
    0 <= t.val && t.len == |text| && t.val + t.len <= |src| && src[t.val..t.val + t.len] == text
  }

  // ---- one lexeme ----

  lemma {:induction false} NameSpans(s: string, x: string)
    requires (forall i :: 0 <= i < |s| ==> IsIdentPart(s[i])) && (x == "" || x[0] == '.')
    ensures Span(Parts, s + x) == |s|
  {
    if s == "" {
      assert s + x == x;
    } else {
      NameSpans(s[1..], x);
      assert (s + x)[1..] == s[1..] + x;
    }
  }

  lemma {:induction false} DottedSpans(more: seq<string>)
    requires forall i :: 0 <= i < |more| ==> IsName(more[i])
    ensures Dots(Dotted(more)) == |Dotted(more)|
  {
    if more != [] {
      var s, x := Dotted(more), Dotted(more[1..]);
      assert s[0] == '.' && s[1] == more[0][0] && s[1..] == more[0] + x;
      NameSpans(more[0], x);
      assert s[1 + |more[0]|..] == x;
      DottedSpans(more[1..]);
    }
  }

  lemma NameLength(l: Lexeme)
    requires l.Wf() && l.Name?
    ensures l.Text() != "" && IsIdentStart(l.Text()[0]) && WordLen(l.Text()) == |l.Text()|
  {
    var s, x := l.Text(), Dotted(l.more);
    assert s[0] == l.first[0] && s[1..] == l.first[1..] + x;
    NameSpans(l.first[1..], x);
    assert s[|l.first|..] == x;
    DottedSpans(l.more);
  }

  lemma NameLexes(l: Lexeme, base: nat)
    requires l.Wf() && l.Name?
    ensures l.Text() != ""
    ensures Scan(l.Text(), base) == Step([Token(Keyword(l.Text()), base, |l.Text()|)], |l.Text()|, false)
  {
    hide Keyword, WordLen, Lexeme.Text;
    NameLength(l);
    assert l.Text()[..|l.Text()|] == l.Text();
  }

  lemma {:induction false} DigitsSpan(s: string)
    requires AllDigits(s)
    ensures Span(Digits, s) == |s|
  {
    if s != "" { DigitsSpan(s[1..]); }
  }

  lemma NumeralLexes(l: Lexeme, base: nat)
    requires l.Wf() && l.Numeral?
    ensures Scan(l.Text(), base) == Step([Token(1, I32(Decimal(l.digits)), 0)], |l.digits|, false)
  {
    DigitsSpan(l.digits);
    assert l.digits[..|l.digits|] == l.digits;
    AccumulateIsDecimal(l.digits);
  }

  lemma LiteralLexes(l: Lexeme, base: nat)
    requires l.Wf() && l.Literal?
    ensures Scan(l.Text(), base) == Step([Token(37, base + 1, |BodyText(l.body)|)], |l.Text()|, false)
  {
    assert l.Text()[1..] == BodyText(l.body) + ("\"" + "");
    BodyCloses(l.body, "");
  }

  lemma SymbolIsOperator(text: string, base: nat)
    requires SymbolKind(text) != 0
    ensures text != "" && Scan(text, base) == Operator(text)
  {
    hide Operator;
  }

  lemma OperatorOfSymbol(text: string)
    requires SymbolKind(text) != 0 && text != ""
    ensures SymbolKind(text) != 37
    ensures Operator(text) == Step([Token(SymbolKind(text), text[0] as int, 0)], |text|, false)
  {
  }

  lemma SymbolLexes(l: Lexeme, base: nat)
    requires l.Wf() && l.Symbol?
    ensures l.text != "" && SymbolKind(l.text) != 37
    ensures Scan(l.Text(), base) == Step([Token(SymbolKind(l.text), l.text[0] as int, 0)], |l.text|, false)
  {
    hide SymbolKind, Scan, Operator;
    SymbolIsOperator(l.text, base);
    OperatorOfSymbol(l.text);
  }

  lemma CharacterLexes(l: Lexeme, base: nat)
    requires l.Wf() && l.Character?
    ensures Scan(l.Text(), base) == Step([Token(41, CharValue(l.item), 0)], |l.Text()|, false)
  {
  }

  /** One step over the whole text is all there is. */
  lemma OneStepLexes(s: string, t: Token)
    requires s != "" && Scan(s, 0) == Step([t], |s|, false)
    ensures Closed(s) && Lex(s, 0) == [t]
  {
    hide Scan;
    assert s[|s|..] == "";
    LexOnce(s, 0);
    LexEmpty(|s|);
  }

  lemma WholeSlice(s: string, kind: int)
    ensures SliceIs(s, Token(kind, 0, |s|), s)
  {
    assert s[0..|s|] == s;
  }

  lemma QuotedSlice(body: string)
    ensures SliceIs("\"" + (body + "\""), Token(37, 1, |body|), body)
  {
    var s := "\"" + (body + "\"");
    assert s[1..1 + |body|] == body;
  }

  /** A lexeme by itself is closed and lexes to one token that spells it. */
  lemma LexemeLexes(l: Lexeme)
    requires l.Wf()
    ensures Closed(l.Text()) && |Lex(l.Text(), 0)| == 1 && Spells(l.Text(), Lex(l.Text(), 0)[0], l)
  {
    hide Scan, Lex, Closed, SymbolKind, Keyword, NameKind, CharValue, SliceIs, Dotted;
    var s := l.Text();
    var t: Token;
    match l {
      case Name(_, _) =>
        NameLexes(l, 0);
        KeywordIsNameKind(s);
        t := Token(NameKind(s), 0, |s|);
        WholeSlice(s, NameKind(s));
      case Numeral(digits) =>
        NumeralLexes(l, 0);
        t := Token(1, I32(Decimal(digits)), 0);
      case Literal(body) =>
        LiteralLexes(l, 0);
        t := Token(37, 1, |BodyText(body)|);
        QuotedSlice(BodyText(body));
      case Symbol(text) =>
        SymbolLexes(l, 0);
        t := Token(SymbolKind(text), text[0] as int, 0);
      case Character(item) =>
        CharacterLexes(l, 0);
        t := Token(41, CharValue(item), 0);
    }
    OneStepLexes(s, t);
  }

  // ---- a list of lexemes ----

  lemma SliceWithin(pre: string, src: string, post: string, t: Token, text: string)
    requires SliceIs(src, t, text)
    ensures SliceIs(pre + src + post, t.(val := t.val + |pre|), text)
  {
    assert (pre + src + post)[|pre| + t.val..|pre| + t.val + t.len] == src[t.val..t.val + t.len];
  }

  /** A token still spells its lexeme when its source becomes part of a longer one. */
  lemma SpellsWithin(pre: string, src: string, post: string, t: Token, l: Lexeme)
    requires l.Wf() && Spells(src, t, l)
    ensures Spells(pre + src + post, Moved(t, |pre|), l)
  {
    hide SymbolKind, NameKind, CharValue, BodyText, Lexeme.Text, Decimal, I32, SliceIs;
    match l {
      case Name(_, _) =>
        NameLexes(l, 0);
        assert t.len > 0 by { SliceLength(src, t, l.Text()); }
        SliceWithin(pre, src, post, t, l.Text());
      case Numeral(_) =>
      case Literal(body) => SliceWithin(pre, src, post, t, BodyText(body));
      case Symbol(_) => SymbolLexes(l, 0);
      case Character(_) =>
    }
  }

  lemma SliceLength(src: string, t: Token, text: string)
    requires SliceIs(src, t, text)
    ensures t.len == |text|
  {
  }

  /** The lexer returned ls from src. */
  predicate Returns(src: string, ts: seq<Token>, ls: seq<Lexeme>) {
    |ts| == |ls| && forall i :: 0 <= i < |ls| ==> ls[i].Wf() && Spells(src, ts[i], ls[i])
  }

  lemma ReturnsWithin(pre: string, src: string, ts: seq<Token>, ls: seq<Lexeme>)
    requires Returns(src, ts, ls)
    ensures Returns(pre + src, Shift(ts, |pre|), ls)
  {
    hide Spells, Lexeme.Wf, Moved;
    forall i | 0 <= i < |ls|
      ensures ls[i].Wf() && Spells(pre + src, Shift(ts, |pre|)[i], ls[i])
    {
      SpellsWithin(pre, src, "", ts[i], ls[i]);
      assert pre + src + "" == pre + src;
    }
  }

  lemma ReturnsMore(src: string, t: Token, l: Lexeme, ts: seq<Token>, ls: seq<Lexeme>)
    requires l.Wf() && Spells(src, t, l) && Returns(src, ts, ls)
    ensures Returns(src, [t] + ts, [l] + ls)
  {
    hide Spells, Lexeme.Wf;
  }

  lemma PrintStep(l: Lexeme, ls: seq<Lexeme>, src: string)
    requires l.Wf() && Returns(src, Lex(src, 0), ls)
    ensures var s := l.Text() + " " + src; Returns(s, Lex(s, 0), [l] + ls)
  {
    hide Lex, Closed, Spells, Lexeme.Text, Lexeme.Wf, Moved, Returns, Shift;
    var a := l.Text();
    var s := a + " " + src;
    LexemeLexes(l);
    ComposesApart(a, Blank(' '), src);
    var t := Lex(a, 0)[0];
    assert Lex(a, 0) == [t];
    SpellsWithin("", a, " " + src, t, l);
    assert "" + a + (" " + src) == s;
    MovedByNone(t);
    ReturnsWithin(a + " ", src, Lex(src, 0), ls);
    ReturnsMore(s, t, l, Shift(Lex(src, 0), |a| + 1), ls);
  }

  lemma MovedByNone(t: Token)
    ensures Moved(t, 0) == t
  {
  }

  /** Printed lexemes come back one for one, with their kinds, values and source slices. */
  lemma {:induction false} LexPrint(ls: seq<Lexeme>)
    requires forall i :: 0 <= i < |ls| ==> ls[i].Wf()
    ensures Returns(Print(ls), Lex(Print(ls), 0), ls)
  {
    hide Lex, Closed, Spells, Lexeme.Text, Lexeme.Wf;
    if ls == [] {
      LexEmpty(0);
    } else if |ls| == 1 {
      LexemeLexes(ls[0]);
    } else {
      LexPrint(ls[1..]);
      PrintStep(ls[0], ls[1..], Print(ls[1..]));
      assert ls == [ls[0]] + ls[1..];
    }
  }

  /** A number comes back as its decimal value if and only if that is below 2^31. */
  lemma NumeralIsExact(src: string, t: Token, digits: string)
    requires Numeral(digits).Wf() && Spells(src, t, Numeral(digits))
    ensures t == Token(1, Decimal(digits), 0) <==> Decimal(digits) <= MAX32
  {
    AccumulateIsDecimal(digits);
  }

  // ---- slices given back as text ----

  predicate AllEmit(s: string) { s == "" || (Emits(s[0]) && AllEmit(s[1..])) }

  /** slice_str gives the slice back exactly when it can give back every byte of it. */
  lemma {:induction false} SliceStrExact(src: string, start: nat, len: nat)
    requires start + len <= |src|
    ensures var s := src[start..start + len]; SliceStr(src, start, len) == if AllEmit(s) then Some(s) else None
    decreases len
  {
    hide Emits;
    if len > 0 {
      var s := src[start..start + len];
      assert s[1..] == src[start + 1..start + len] && s == [src[start]] + s[1..];
      SliceStrExact(src, start + 1, len - 1);
      if len == 1 {
        assert s == [src[start]] && AllEmit(s[1..]);
      } else {
        assert AllEmit(s) == (Emits(src[start]) && AllEmit(s[1..]));
      }
    }
  }

  lemma {:induction false} EmitAppend(a: string, b: string)
    ensures AllEmit(a + b) <==> AllEmit(a) && AllEmit(b)
  {
    hide Emits;
    if a == "" {
      assert a + b == b;
    } else {
      assert (a + b)[1..] == a[1..] + b;
      EmitAppend(a[1..], b);
    }
  }

  lemma {:induction false} PartsEmit(s: string)
    requires forall i :: 0 <= i < |s| ==> IsIdentPart(s[i])
    ensures AllEmit(s)
  {
    if s != "" { PartsEmit(s[1..]); }
  }

  lemma {:induction false} DottedEmits(more: seq<string>)
    requires forall i :: 0 <= i < |more| ==> IsName(more[i])
    ensures AllEmit(Dotted(more))
  {
    if more != [] {
      PartsEmit(more[0]);
      DottedEmits(more[1..]);
      EmitAppend(more[0], Dotted(more[1..]));
      EmitAppend(".", more[0] + Dotted(more[1..]));
    }
  }

  lemma NameEmits(l: Lexeme)
    requires l.Wf() && l.Name?
    ensures AllEmit(l.Text())
  {
    PartsEmit(l.first);
    DottedEmits(l.more);
    EmitAppend(l.first, Dotted(l.more));
  }

  /** The slice of every identifier and keyword token gives back its name. */
  lemma NamesAreGivenBack(src: string, t: Token, l: Lexeme)
    requires l.Wf() && l.Name? && Spells(src, t, l)
    ensures 0 <= t.val && 0 <= t.len && t.val + t.len <= |src| && SliceStr(src, t.val, t.len) == Some(l.Text())
  {
    hide NameKind, Lexeme.Text, Emits, AllEmit;
    NameEmits(l);
    SliceStrExact(src, t.val, t.len);
  }
}
