/** Lexing is compositional, and undoes printing. */
module LexerTheorems {
  import opened Numeric
  import opened Lexer
  import opened LexerProofs

  // ---- offsets ----

  /** Tokens whose val is a position in the source: words, which have a length, and string literals. */
  predicate Positioned(t: Token) { t.len > 0 || t.kind == 37 }

  function Moved(t: Token, d: int): Token { if Positioned(t) then t.(val := t.val + d) else t }

  function Shift(ts: seq<Token>, d: int): (r: seq<Token>)
    ensures |r| == |ts|
  { seq(|ts|, i requires 0 <= i < |ts| => Moved(ts[i], d)) }

  lemma OperatorKinds(s: string)
    requires s != ""
    ensures |Operator(s).toks| <= 1 && forall t :: t in Operator(s).toks ==> !Positioned(t)
  {
  }

  lemma ShiftAppend(a: seq<Token>, b: seq<Token>, d: int)
    ensures Shift(a + b, d) == Shift(a, d) + Shift(b, d) && Shift([], d) == []
    ensures |a| == 1 ==> Shift(a, d) == [Moved(a[0], d)]
  {
  }

  lemma ScanShift(s: string, base: nat, d: nat)
    requires s != ""
    ensures var r := Scan(s, base); Scan(s, base + d) == r.(toks := Shift(r.toks, d))
  {
    hide Operator, Keyword, Accumulate, Span, Attr, WordLen, StringLen, Shift, CharLit;
    var r := Scan(s, base);
    ShiftAppend(r.toks, [], d);
    ShiftAppend([], [], d);
    if s[0] == '\'' {
      CharKind(s);
    } else {
      OperatorKinds(s);
    }
    assert |r.toks| == 1 ==> r.toks == [r.toks[0]];
  }

  lemma CharKind(s: string)
    requires s != ""
    ensures |CharLit(s).toks| == 1 && !Positioned(CharLit(s).toks[0])
  {
  }

  /** One turn of the loop. */
  lemma LexOnce(s: string, base: nat)
    requires s != ""
    ensures var r := Scan(s, base); Lex(s, base) == r.toks + Lex(Rest(s, r.next), base + r.next)
  {
    hide Scan;
  }

  lemma ClosedOnce(s: string, base: nat)
    requires s != "" && Closed(s)
    ensures var r := Scan(s, base); !r.open && r.next <= |s| && Closed(s[r.next..])
  {
    hide Scan;
    ScanShift(s, 0, base);
  }

  /** Where a text stands in the source only moves the offsets of its tokens. */
  lemma {:induction false} LexShift(s: string, base: nat, d: nat)
    ensures Lex(s, base + d) == Shift(Lex(s, base), d)
    decreases |s|
  {
    hide Scan, Shift, Lex;
    if s == "" {
      LexEmpty(base);
      LexEmpty(base + d);
      ShiftAppend([], [], d);
    } else {
      ScanShift(s, base, d);
      LexOnce(s, base);
      LexOnce(s, base + d);
      var r := Scan(s, base);
      LexShift(Rest(s, r.next), base + r.next, d);
      ShiftAppend(r.toks, Lex(Rest(s, r.next), base + r.next), d);
    }
  }

  lemma LexEmpty(base: nat)
    ensures Lex("", base) == []
  {
  }

  lemma SeparatesStill(a: string, x: string, n: nat)
    requires Separates(a, x) && n <= |a|
    ensures Separates(a[n..], x)
  {
  }

  /** A closed text lexes the same before anything that separates. */
  lemma {:induction false} LexAppend(a: string, x: string, base: nat)
    requires Closed(a) && Separates(a, x)
    ensures Lex(a + x, base) == Lex(a, base) + Lex(x, base + |a|)
    decreases |a|
  {
    hide Scan, Lex, Closed, Separates;
    if a == "" {
      assert a + x == x;
      LexEmpty(base);
    } else {
      ClosedOnce(a, base);
      ScanStops(a, x, base);
      LexOnce(a, base);
      LexOnce(a + x, base);
      var n := Scan(a, base).next;
      assert (a + x)[n..] == a[n..] + x;
      SeparatesStill(a, x, n);
      LexAppend(a[n..], x, base + n);
    }
  }

  /** The slice of a word or string token lies between two positions. */
  predicate Within(t: Token, lo: int, hi: int) {
    Positioned(t) ==> lo <= t.val <= t.val + t.len <= hi
  }

  lemma ScanWithin(s: string, base: nat)
    requires s != ""
    ensures var r := Scan(s, base); |r.toks| <= 1
    ensures var r := Scan(s, base);
            r.toks != [] ==> Within(r.toks[0], base, base + r.next) && Within(r.toks[0], base, base + |s|)
  {
    hide Operator, Keyword, Accumulate, Span, Attr, WordLen, StringLen, CharLit;
    OperatorKinds(s);
    CharKind(s);
  }

  lemma {:induction false} LexWithin(s: string, base: nat)
    ensures forall i :: 0 <= i < |Lex(s, base)| ==> Within(Lex(s, base)[i], base, base + |s|)
    decreases |s|
  {
    hide Scan, Lex, Positioned;
    if s == "" {
      LexEmpty(base);
    } else {
      LexOnce(s, base);
      ScanWithin(s, base);
      var r := Scan(s, base);
      LexEmpty(base + r.next);
      LexWithin(Rest(s, r.next), base + r.next);
    }
  }

  /** On every text, the slices of the word and string tokens lie in the text, apart and in order. */
  lemma {:induction false} LexInOrder(s: string, base: nat)
    ensures var ts := Lex(s, base);
            && (forall i :: 0 <= i < |ts| ==> Within(ts[i], base, base + |s|))
            && forall i, j :: 0 <= i < j < |ts| && Positioned(ts[i]) && Positioned(ts[j]) ==>
              ts[i].val + ts[i].len <= ts[j].val
    decreases |s|
  {
    hide Scan, Lex, Positioned;
    LexWithin(s, base);
    if s == "" {
      LexEmpty(base);
    } else {
      LexOnce(s, base);
      ScanWithin(s, base);
      var r := Scan(s, base);
      LexEmpty(base + r.next);
      LexWithin(Rest(s, r.next), base + r.next);
      LexInOrder(Rest(s, r.next), base + r.next);
      var ts, us := Lex(s, base), Lex(Rest(s, r.next), base + r.next);
      assert forall j :: |r.toks| <= j < |ts| ==> ts[j] == us[j - |r.toks|];
    }
  }

  // ---- trivia ----

  /** An item of the inside of a string literal. */
  datatype StrItem = Bare(c: char) | Escape(c: char) {
    predicate Wf() { Bare? ==> c != '"' && c != '\\' }
    function Text(): string { if Bare? then [c] else ['\\', c] }
  }

  predicate WfBody(body: seq<StrItem>) { forall i :: 0 <= i < |body| ==> body[i].Wf() }

  function BodyText(body: seq<StrItem>): string {
    if body == [] then "" else body[0].Text() + BodyText(body[1..])
  }

  /** The inside of an attribute: brackets balance outside its strings. */
  datatype Inside =
    | Done
    | Plain(c: char, rest: Inside)
    | Quoted(body: seq<StrItem>, rest: Inside)
    | Nested(inner: Inside, rest: Inside)
  {
    predicate Wf() {
      match this
      case Done => true
      case Plain(c, rest) => c != '"' && c != '[' && c != ']' && rest.Wf()
      case Quoted(body, rest) => WfBody(body) && rest.Wf()
      case Nested(inner, rest) => inner.Wf() && rest.Wf()
    }

    function Text(): string {
      match this
      case Done => ""
      case Plain(c, rest) => [c] + rest.Text()
      case Quoted(body, rest) => "\"" + (BodyText(body) + ("\"" + rest.Text()))
      case Nested(inner, rest) => "[" + (inner.Text() + ("]" + rest.Text()))
    }
  }

  datatype Trivia = Blank(c: char) | LineComment(body: string) | Tag(inside: Inside) {
    predicate Wf() {
      match this
      case Blank(c) => IsSpace(c)
      case LineComment(body) => '\n' !in body
      case Tag(inside) => inside.Wf()
    }

    function Text(): (t: string)
      ensures t != ""
    {
      match this
      case Blank(c) => [c]
      case LineComment(body) => "//" + (body + "\n")
      case Tag(inside) => "#[" + (inside.Text() + "]")
    }
  }

  lemma {:induction false} BodyCloses(body: seq<StrItem>, x: string)
    requires WfBody(body)
    ensures StringLen(BodyText(body) + ("\"" + x)) == |BodyText(body)|
  {
    if body != [] {
      BodyCloses(body[1..], x);
      var y := BodyText(body[1..]) + ("\"" + x);
      assert BodyText(body) + ("\"" + x) == body[0].Text() + y;
      StringOnce(body[0], y);
    }
  }

  lemma StringOnce(i: StrItem, y: string)
    requires i.Wf()
    ensures StringLen(i.Text() + y) == |i.Text()| + StringLen(y)
  {
    assert (i.Text() + y)[|i.Text()|..] == y;
  }

  lemma QuotedOnce(i: StrItem, d: nat, y: string)
    requires i.Wf() && d > 0
    ensures var r := Attr(y, d, true); Attr(i.Text() + y, d, true) == (|i.Text()| + r.0, r.1)
  {
    assert (i.Text() + y)[|i.Text()|..] == y;
  }

  lemma QuoteCloses(d: nat, x: string)
    requires d > 0
    ensures var r := Attr(x, d, false); Attr("\"" + x, d, true) == (1 + r.0, r.1)
  {
    assert ("\"" + x)[1..] == x;
  }

  lemma {:induction false} QuotedCloses(body: seq<StrItem>, d: nat, x: string)
    requires WfBody(body) && d > 0
    ensures var r := Attr(x, d, false);
            Attr(BodyText(body) + ("\"" + x), d, true) == (|BodyText(body)| + 1 + r.0, r.1)
  {
    hide Attr;
    if body == [] {
      assert BodyText(body) + ("\"" + x) == "\"" + x;
      QuoteCloses(d, x);
    } else {
      QuotedCloses(body[1..], d, x);
      var y := BodyText(body[1..]) + ("\"" + x);
      assert BodyText(body) + ("\"" + x) == body[0].Text() + y;
      QuotedOnce(body[0], d, y);
    }
  }

  lemma AttrOnce(s: string, d: nat, x: string)
    requires s != "" && s[1..] == x && d > 0
    ensures Attr(s, d, false) ==
      var r := Attr(x, if s[0] == '[' then d + 1 else if s[0] == ']' then d - 1 else d, s[0] == '"'); (1 + r.0, r.1)
  {
  }

  lemma {:induction false} InsideCloses(i: Inside, d: nat, x: string)
    requires i.Wf() && d > 0
    ensures var r := Attr(x, d, false); Attr(i.Text() + x, d, false) == (|i.Text()| + r.0, r.1)
    decreases i
  {
    hide Attr, BodyText, WfBody;
    var s := i.Text() + x;
    match i
    case Done => assert s == x;
    case Plain(c, rest) =>
      InsideCloses(rest, d, x);
      AttrOnce(s, d, rest.Text() + x);
    case Quoted(body, rest) =>
      InsideCloses(rest, d, x);
      var y := "\"" + (rest.Text() + x);
      QuotedCloses(body, d, rest.Text() + x);
      assert s == "\"" + (BodyText(body) + y);
      AttrOnce(s, d, BodyText(body) + y);
    case Nested(inner, rest) =>
      InsideCloses(rest, d, x);
      var y := "]" + (rest.Text() + x);
      InsideCloses(inner, d + 1, y);
      assert s == "[" + (inner.Text() + y);
      AttrOnce(s, d, inner.Text() + y);
      AttrOnce(y, d + 1, rest.Text() + x);
  }

  lemma LexBlank(c: char, b: string, base: nat)
    requires IsSpace(c)
    ensures Lex([c] + b, base) == Lex(b, base + 1)
  {
    LexOnce([c] + b, base);
    assert ([c] + b)[1..] == b;
  }

  lemma LexLineComment(body: string, b: string, base: nat)
    requires '\n' !in body
    ensures Lex("//" + (body + ("\n" + b)), base) == Lex(b, base + 3 + |body|)
  {
    hide Lex;
    var y := ['\n'] + b;
    var s := "//" + (body + y);
    LexOnce(s, base);
    assert s[2..] == body + y;
    CommentEnds(body, y);
    assert s[2 + |body|..] == y;
    LexBlank('\n', b, base + 2 + |body|);
  }

  lemma LexTag(inside: Inside, b: string, base: nat)
    requires inside.Wf()
    ensures Lex("#[" + (inside.Text() + ("]" + b)), base) == Lex(b, base + 3 + |inside.Text()|)
  {
    hide Lex, Attr;
    var y := "]" + b;
    var s := "#[" + (inside.Text() + y);
    LexOnce(s, base);
    assert s[2..] == inside.Text() + y;
    TagCloses(inside, b);
    assert s[3 + |inside.Text()|..] == b;
  }

  /** Trivia yields no tokens. */
  lemma LexTrivia(t: Trivia, b: string, base: nat)
    requires t.Wf()
    ensures Lex(t.Text() + b, base) == Lex(b, base + |t.Text()|)
  {
    hide Lex;
    match t
    case Blank(c) => LexBlank(c, b, base);
    case LineComment(body) =>
      assert t.Text() + b == "//" + (body + ("\n" + b));
      LexLineComment(body, b, base);
    case Tag(inside) =>
      assert t.Text() + b == "#[" + (inside.Text() + ("]" + b));
      LexTag(inside, b, base);
  }

  lemma TagCloses(i: Inside, b: string)
    requires i.Wf()
    ensures Attr(i.Text() + ("]" + b), 1, false) == (|i.Text()| + 1, true)
  {
    InsideCloses(i, 1, "]" + b);
    AttrOnce("]" + b, 1, b);
  }

  lemma {:induction false} CommentEnds(body: string, x: string)
    requires '\n' !in body && (x == "" || x[0] == '\n')
    ensures Span(Line, body + x) == |body|
  {
    if body == "" {
      assert body + x == x;
    } else {
      CommentEnds(body[1..], x);
      assert (body + x)[1..] == body[1..] + x;
    }
  }

  // ---- compositionality ----

  /** A slash that the comment after it would swallow. */
  predicate Swallows(a: string, t: Trivia) { t.LineComment? && a != "" && a[|a| - 1] == '/' }

  lemma ComposesApart(a: string, t: Trivia, b: string)
    requires Closed(a) && t.Wf() && !Swallows(a, t)
    ensures Lex(a + t.Text() + b, 0) == Lex(a, 0) + Shift(Lex(b, 0), |a| + |t.Text()|)
  {
    hide Lex, Closed, Shift;
    var x := t.Text() + b;
    assert x[0] == t.Text()[0];
    assert a + t.Text() + b == a + x;
    LexAppend(a, x, 0);
    LexTrivia(t, b, |a|);
    LexShift(b, 0, |a| + |t.Text()|);
  }

  lemma {:induction false} AttrEnds(s: string, d: nat, inString: bool)
    requires d > 0 && Attr(s, d, inString).1
    ensures var n := Attr(s, d, inString).0; n >= 1 && s[n - 1] == ']'
    decreases |s|
  {
    if inString {
      if s[0] == '\\' { AttrEnds(s[2..], d, true); } else { AttrEnds(s[1..], d, s[0] != '"'); }
    } else {
      var e := if s[0] == '[' then d + 1 else if s[0] == ']' then d - 1 else d;
      if e > 0 { AttrEnds(s[1..], e, s[0] == '"'); }
    }
  }

  /** A step that is not open does not take in a slash at the end, nor see what follows it. */
  lemma SlashStops(a: string, y: string, base: nat)
    requires a != "" && !Scan(a + "/", base).open
    ensures Scan(a + "/" + y, base) == Scan(a + "/", base) && Scan(a + "/", base).next <= |a|
  {
    hide Number, Word, Operator, Attr, StringLen, Span, Escaped;
    var b, s := a[0], a + "/";
    assert s[0] == b && s[|a|] == '/' && (s + y)[0] == b && (s + y)[1] == s[1];
    assert s + y == a + ("/" + y);
    if IsSpace(b) {
    } else if b == '/' && s[1] == '/' {
      CommentStops(s, y);
    } else if b == '#' && s[1] == '[' {
      AttributeStops(s, y);
      AttrEnds(s[2..], 1, false);
    } else if IsDigit(b) {
      NumberStops(a, "/" + y);
      NumberStops(a, "/");
    } else if IsIdentStart(b) {
      WordScanStops(a, "/" + y, base);
      WordScanStops(a, "/", base);
    } else if b == '"' {
      StringLitStops(s, y, base);
      assert s[1..][StringLen(s[1..])] == '"';
    } else if b == '\'' {
      CharStops(s, y);
    } else {
      OperatorStops(a, "/" + y);
      OperatorStops(a, "/");
      OperatorFits(a);
    }
  }

  lemma OperatorFits(a: string)
    requires a != ""
    ensures Operator(a).next <= |a|
  {
  }

  lemma LexSlash(base: nat)
    ensures |Lex("/", base)| == 1 && Lex("/", base)[..0] == []
  {
    LexOnce("/", base);
    LexEmpty(base + 1);
  }

  /** The slash at the end of a closed text is its last token; what follows may take it away. */
  lemma {:induction false} SlashEnds(a: string, y: string, base: nat)
    requires Closed(a + "/")
    ensures var l := Lex(a + "/", base);
            l != [] && Lex(a + "/" + y, base) == l[..|l| - 1] + Lex("/" + y, base + |a|)
    decreases |a|
  {
    hide Lex, Scan, Closed;
    var s := a + "/";
    if a == "" {
      assert s == "/" && s + y == "/" + y;
      LexSlash(base);
    } else {
      ClosedOnce(s, base);
      SlashStops(a, y, base);
      LexOnce(s, base);
      LexOnce(s + y, base);
      var n := Scan(s, base).next;
      assert s[n..] == a[n..] + "/" && (s + y)[n..] == a[n..] + "/" + y;
      SlashEnds(a[n..], y, base + n);
    }
  }

  /** Lexing a, trivia and b gives the tokens of a followed by those of b at their offsets, exactly when the
      trivia is not a line comment right after a slash. */
  lemma Composes(a: string, t: Trivia, b: string)
    requires Closed(a) && t.Wf()
    ensures Lex(a + t.Text() + b, 0) == Lex(a, 0) + Shift(Lex(b, 0), |a| + |t.Text()|) <==> !Swallows(a, t)
  {
    hide Lex, Closed, Shift;
    if Swallows(a, t) {
      var a0, y := a[..|a| - 1], t.Text() + b;
      assert a == a0 + "/" && a + t.Text() + b == a0 + "/" + y;
      SlashEnds(a0, y, 0);
      assert "/" + y == "//" + (("/" + t.body) + ("\n" + b));
      LexLineComment("/" + t.body, b, |a0|);
      LexShift(b, 0, |a0| + 4 + |t.body|);
    } else {
      ComposesApart(a, t, b);
    }
  }

  /** For instance, a comment right after a lone slash takes the slash away. */
  lemma SlashIsSwallowed()
    ensures Closed("/") && LineComment("").Wf()
    ensures Lex("/" + LineComment("").Text(), 0) == [] != Lex("/", 0)
  {
    hide Lex;
    var t := LineComment("");
    assert "/" + t.Text() == "//" + ("/" + ("\n" + ""));
    LexLineComment("/", "", 0);
    LexEmpty(4);
    LexSlash(0);
    assert "/"[1..] == "" && Scan("/", 0) == One(5, '/');
  }
}
