/** What one turn of the lexer takes from the front of any text: for each form, the longest match. */
module LexerMunch {
  import opened Numeric
  import opened Lexer
  import opened LexerTheorems
  import opened LexerPrint

  /** The text starts with w. */
  predicate Starts(s: string, w: string) { |w| <= |s| && s[..|w|] == w }

  // ---- spaces and comments ----

  lemma SpaceIsSkipped(s: string, base: nat)
    requires s != "" && s[0] in " \t\n\r"
    ensures Scan(s, base) == Step([], 1, false)
  {
  }

  /** A line comment reaches up to the first newline, or to the end of the text. */
  lemma CommentMunch(s: string, base: nat)
    requires Starts(s, "//")
    ensures var r := Scan(s, base);
            && r.toks == [] && 2 <= r.next <= |s| && (forall i :: 2 <= i < r.next ==> s[i] != '\n')
            && (if r.open then r.next == |s| else r.next < |s| && s[r.next] == '\n')
  {
    hide Span;
    assert s[0] == '/' && s[1] == '/' by { assert s[..2][0] == '/' && s[..2][1] == '/'; }
    SpanHas(Line, s[2..]);
    var n := Span(Line, s[2..]);
    assert forall i :: 2 <= i < 2 + n ==> s[i] == s[2..][i - 2];
  }

  // ---- numbers ----

  /** A number is the longest run of digits. */
  lemma NumberMunch(s: string, base: nat) returns (n: nat)
    requires s != "" && s[0] in "0123456789"
    ensures 1 <= n <= |s| && AllDigits(s[..n]) && (n < |s| ==> s[n] !in "0123456789")
    ensures Scan(s, base) == Step([Token(1, I32(Decimal(s[..n])), 0)], n, false)
  {
    hide Span, Accumulate, IsDigit;
    DigitTable(s[0]);
    n := Span(Digits, s);
    SpanHas(Digits, s);
    if n < |s| { DigitTable(s[n]); }
    DigitIsNoSpace(s[0]);
    AccumulateIsDecimal(s[..n]);
  }

  lemma DigitIsNoSpace(c: char)
    requires IsDigit(c)
    ensures !IsSpace(c) && c != '/' && c != '#'
  {
  }

  // ---- operators ----

  /** Where no other form starts, an operator of two characters is preferred to one of one character, and a
      character that starts neither is skipped. */
  lemma OperatorMunch(s: string, base: nat)
    requires s != "" && !IsSpace(s[0]) && !IsDigit(s[0]) && !IsIdentStart(s[0]) && s[0] != '"' && s[0] != '\''
    requires !Starts(s, "//") && !Starts(s, "#[")
    ensures Scan(s, base) ==
      if |s| > 1 && SymbolKind(s[..2]) != 0 then Step([Token(SymbolKind(s[..2]), s[0] as int, 0)], 2, false)
      else if SymbolKind(s[..1]) != 0 then Step([Token(SymbolKind(s[..1]), s[0] as int, 0)], 1, false)
      else Step([], 1, false)
  {
    hide SymbolKind, Operator;
    if |s| > 1 { assert s[..2] == [s[0], s[1]]; }
    assert s[..1] == [s[0]];
    OperatorIsLongest(s);
  }

  lemma OperatorIsLongest(s: string)
    requires s != ""
    ensures Operator(s) ==
      if |s| > 1 && SymbolKind([s[0], s[1]]) != 0 then Step([Token(SymbolKind([s[0], s[1]]), s[0] as int, 0)], 2, false)
      else if SymbolKind([s[0]]) != 0 then Step([Token(SymbolKind([s[0]]), s[0] as int, 0)], 1, false)
      else Step([], 1, false)
  {
  }

  // ---- names ----

  lemma StartsPart(s: string, a: string, b: string)
    requires Starts(s, a + b)
    ensures Starts(s, a) && Starts(s[|a|..], b)
  {
    assert s[..|a|] == (a + b)[..|a|];
    assert s[|a|..][..|b|] == s[..|a + b|][|a|..] == b;
  }

  lemma StartsAgain(s: string, a: string, b: string)
    requires Starts(s, a) && Starts(s[|a|..], b)
    ensures Starts(s, a + b)
  {
    assert s[..|a| + |b|] == s[..|a|] + s[|a|..][..|b|];
  }

  /** A run takes in everything up to a character outside its class, and so any such prefix. */
  lemma {:induction false} SpanLongest(c: Class, s: string, w: string)
    requires Starts(s, w) && forall i :: 0 <= i < |w| ==> c.Has(w[i])
    ensures |w| <= Span(c, s) && (|w| < |s| && !c.Has(s[|w|]) ==> Span(c, s) == |w|)
  {
    hide Class.Has;
    if w == "" {
      assert s != "" && !c.Has(s[0]) ==> Span(c, s) == 0;
    } else {
      assert s[0] == w[0];
      assert s[1..][..|w| - 1] == w[1..];
      SpanLongest(c, s[1..], w[1..]);
    }
  }

  lemma DotStartsNothing(w: string)
    requires IsName(w)
    ensures forall i :: 0 <= i < |w| ==> Parts.Has(w[i])
    ensures !Parts.Has('.')
  {
  }

  lemma {:induction false} DotsLongest(more: seq<string>, s: string)
    requires (forall i :: 0 <= i < |more| ==> IsName(more[i])) && Starts(s, Dotted(more))
    ensures |Dotted(more)| <= Dots(s)
    decreases |more|
  {
    hide Span, Class.Has;
    if more != [] {
      var name, rest := more[0], Dotted(more[1..]);
      DotHead(more, s);
      FirstOf(name, rest, s[1..]);
      DotsFirst(name, rest, s);
      if more[1..] != [] { DotsLongest(more[1..], s[1 + |name|..]); }
    }
  }

  lemma DotHead(more: seq<string>, s: string)
    requires more != [] && IsName(more[0]) && Starts(s, Dotted(more))
    ensures var name, rest := more[0], Dotted(more[1..]);
            && |s| > 1 && s[0] == '.' && IsIdentStart(s[1]) && Starts(s[1..], name + rest)
            && (rest == "" <==> more[1..] == []) && (rest != "" ==> rest[0] == '.')
            && Starts(s[1 + |name|..], rest)
  {
    var name, rest := more[0], Dotted(more[1..]);
    assert Dotted(more) == "." + (name + rest);
    StartsPart(s, ".", name + rest);
    StartsPart(s[1..], name, rest);
    assert s[1..][|name|..] == s[1 + |name|..];
    assert s[0] == s[..1][0] && s[1] == s[1..][..|name|][0];
  }

  /** The first name of a prefix ends where a dot follows it, and no sooner in any case. */
  lemma FirstOf(name: string, rest: string, s: string)
    requires IsName(name) && Starts(s, name + rest) && (rest != "" ==> rest[0] == '.')
    ensures |name| <= Span(Parts, s) && (rest != "" ==> Span(Parts, s) == |name|)
  {
    hide Span, Class.Has;
    StartsPart(s, name, rest);
    DotStartsNothing(name);
    SpanLongest(Parts, s, name);
    if rest != "" { assert s[|name|] == s[|name|..][..|rest|][0] == '.'; }
  }

  lemma DotsFirst(name: string, rest: string, s: string)
    requires |s| > 1 && s[0] == '.' && IsIdentStart(s[1]) && |name| <= Span(Parts, s[1..])
    requires rest != "" ==> Span(Parts, s[1..]) == |name|
    ensures 1 + |name| <= Dots(s)
    ensures rest != "" ==> Dots(s) == 1 + |name| + Dots(s[1 + |name|..])
  {
    hide Span;
  }

  /** Any name that the text starts with, plain or dotted, is no longer than the one scanned. */
  lemma NameIsLongest(first: string, more: seq<string>, s: string)
    requires Name(first, more).Wf() && Starts(s, Name(first, more).Text())
    ensures s != "" && |Name(first, more).Text()| <= WordLen(s)
  {
    hide Span, Dots, Class.Has;
    var rest := Dotted(more);
    assert Name(first, more).Text() == first + rest;
    StartsPart(s, first, rest);
    assert rest != "" ==> rest[0] == '.';
    var tail := first[1..];
    assert first + rest == [first[0]] + (tail + rest);
    StartsPart(s, [first[0]], tail + rest);
    TailOf(tail, rest, s[1..]);
    assert s[1..][|tail|..] == s[|first|..];
    if rest != "" { DotsLongest(more, s[|first|..]); }
  }

  lemma TailOf(tail: string, rest: string, s: string)
    requires (forall i :: 0 <= i < |tail| ==> IsIdentPart(tail[i])) && Starts(s, tail + rest)
    requires rest != "" ==> rest[0] == '.'
    ensures |tail| <= Span(Parts, s) && (rest != "" ==> Span(Parts, s) == |tail|)
  {
    hide Span;
    StartsPart(s, tail, rest);
    SpanLongest(Parts, s, tail);
    if rest != "" { assert s[|tail|] == s[|tail|..][..|rest|][0] == '.'; }
  }

  /** What is scanned is a name. */
  lemma {:induction false} DotsAreNames(s: string) returns (more: seq<string>)
    ensures (forall i :: 0 <= i < |more| ==> IsName(more[i])) && Dotted(more) == s[..Dots(s)]
  {
    hide Span, IsName, IsIdentStart;
    if |s| > 1 && s[0] == '.' && IsIdentStart(s[1]) {
      var n := Span(Parts, s[1..]);
      PartsAreName(s[1..]);
      var name := s[1..][..n];
      var rest := DotsAreNames(s[1 + n..]);
      more := [name] + rest;
      assert more[1..] == rest;
      assert s[..Dots(s)] == "." + (name + s[1 + n..][..Dots(s[1 + n..])]);
    } else {
      more := [];
    }
  }

  lemma PartsAreName(s: string)
    requires s != "" && IsIdentStart(s[0])
    ensures var n := Span(Parts, s); 1 <= n <= |s| && IsName(s[..n])
  {
    SpanHas(Parts, s);
  }

  lemma WordIsName(s: string) returns (l: Lexeme)
    requires s != "" && IsIdentStart(s[0])
    ensures l.Name? && l.Wf() && l.Text() == s[..WordLen(s)]
  {
    hide Span, Dots;
    PartsAreName(s);
    FirstPart(s);
    var k := Span(Parts, s);
    var more := DotsAreNames(s[k..]);
    l := Name(s[..k], more);
    assert s[..WordLen(s)] == s[..k] + s[k..][..Dots(s[k..])];
  }

  lemma FirstPart(s: string)
    requires s != "" && IsIdentStart(s[0])
    ensures Span(Parts, s) == 1 + Span(Parts, s[1..])
  {
  }

  /** Where a letter or an underscore stands, the token is the longest plain or dotted name, keyword or not. */
  lemma NameMunch(s: string, base: nat) returns (l: Lexeme)
    requires s != "" && s[0] in LOWER + UPPER + "_"
    ensures l.Name? && l.Wf() && Starts(s, l.Text())
    ensures forall m: Lexeme :: m.Name? && m.Wf() && Starts(s, m.Text()) ==> |m.Text()| <= |l.Text()|
    ensures Scan(s, base) == Step([Token(NameKind(l.Text()), base, |l.Text()|)], |l.Text()|, false)
  {
    hide WordLen, Keyword, NameKind, Lexeme.Text, Lexeme.Wf, LOWER, UPPER;
    ClassTable(s[0]);
    LetterStarts(s[0]);
    l := WordIsName(s);
    KeywordIsNameKind(l.Text());
    forall m: Lexeme | m.Name? && m.Wf() && Starts(s, m.Text())
      ensures |m.Text()| <= |l.Text()|
    {
      NameIsLongest(m.first, m.more, s);
    }
  }

  lemma LetterStarts(c: char)
    requires IsIdentStart(c)
    ensures !IsSpace(c) && !IsDigit(c) && c != '/' && c != '#'
  {
  }

  // ---- string literals ----

  /** The first item of the inside of a string. */
  function FirstItem(s: string): StrItem
    requires s != ""
  {
    if s[0] == '\\' && |s| > 1 then Escape(s[1]) else Bare(s[0])
  }

  lemma StringStep(s: string)
    requires StringLen(s) < |s| && s[0] != '"'
    ensures var h := FirstItem(s).Text();
            FirstItem(s).Wf() && Starts(s, h) && h != "" && StringLen(s) == |h| + StringLen(s[|h|..])
  {
  }

  lemma StringStop(s: string)
    requires s != "" && s[0] == '"'
    ensures StringLen(s) == 0
  {
  }

  lemma BodyMore(item: StrItem, rest: seq<StrItem>)
    requires item.Wf() && WfBody(rest)
    ensures WfBody([item] + rest) && BodyText([item] + rest) == item.Text() + BodyText(rest)
  {
    assert ([item] + rest)[1..] == rest;
  }

  /** What is scanned as the inside of a string literal is one. */
  lemma {:induction false} StringIsBody(s: string) returns (body: seq<StrItem>)
    requires StringLen(s) < |s|
    ensures WfBody(body) && Starts(s, BodyText(body) + "\"") && |BodyText(body)| == StringLen(s)
    decreases |s|
  {
    hide StringLen, FirstItem, WfBody, StrItem.Text, StrItem.Wf;
    if s[0] == '"' {
      StringStop(s);
      body := [];
      assert WfBody(body) by { NoBody(); }
      assert BodyText(body) + "\"" == "\"";
    } else {
      var item := FirstItem(s);
      StringStep(s);
      var h := item.Text();
      var rest := StringIsBody(s[|h|..]);
      body := [item] + rest;
      BodyMore(item, rest);
      StartsAgain(s, h, BodyText(rest) + "\"");
      assert h + (BodyText(rest) + "\"") == BodyText(body) + "\"";
    }
  }

  lemma NoBody()
    ensures WfBody([])
  {
  }

  function Quote(body: seq<StrItem>): string { "\"" + (BodyText(body) + "\"") }

  lemma QuotedLength(s: string, body: seq<StrItem>)
    requires WfBody(body) && Starts(s, Quote(body))
    ensures StringLen(s[1..]) == |BodyText(body)| && 1 + |BodyText(body)| < |s|
  {
    var x := s[|Quote(body)|..];
    assert s[1..] == BodyText(body) + ("\"" + x) by {
      assert s == Quote(body) + x;
    }
    BodyCloses(body, x);
  }

  /** A string literal ends at its closing quote; without one, nothing is pushed and the text is used up. */
  lemma StringMunch(s: string, base: nat) returns (body: seq<StrItem>)
    requires s != "" && s[0] == '"'
    ensures if exists b :: WfBody(b) && Starts(s, Quote(b)) then
              && WfBody(body) && Starts(s, Quote(body))
              && Scan(s, base) == Step([Token(37, base + 1, |BodyText(body)|)], |Quote(body)|, false)
            else Scan(s, base) == Step([], |s| + 1, true)
  {
    hide StringLen, BodyText;
    body := [];
    if StringLen(s[1..]) < |s| - 1 {
      body := StringIsBody(s[1..]);
      StartsAgain(s, "\"", BodyText(body) + "\"");
    } else {
      assert StringLen(s[1..]) == |s| - 1;
      forall b | WfBody(b) && Starts(s, Quote(b))
        ensures false
      {
        QuotedLength(s, b);
      }
    }
  }

  // ---- char literals ----

  /** A char literal is a quote, a character or an escape, and a closing quote if there is one. */
  lemma CharMunch(item: StrItem, x: string, base: nat)
    requires item.Bare? ==> item.c != '\\'
    ensures Scan("'" + (item.Text() + x), base) ==
      Step([Token(41, CharValue(item), 0)], 1 + |item.Text()| + (if x != "" && x[0] == '\'' then 1 else 0), x == "")
  {
    hide CharValue;
    var s := "'" + (item.Text() + x);
    assert s[0] == '\'' && s[1..] == item.Text() + x;
    CharOf(item, x);
  }

  lemma CharOf(item: StrItem, x: string)
    requires item.Bare? ==> item.c != '\\'
    ensures CharLit("'" + (item.Text() + x)) ==
      Step([Token(41, CharValue(item), 0)], 1 + |item.Text()| + (if x != "" && x[0] == '\'' then 1 else 0), x == "")
  {
    var s := "'" + (item.Text() + x);
    assert x != "" ==> s[1 + |item.Text()|] == x[0];
  }

  /** At the end of the text, what there is of a char literal is a token of value 0. */
  lemma CharAtEnd(base: nat)
    ensures Scan("'", base) == Step([Token(41, 0, 0)], 1, true)
    ensures Scan("'\\", base) == Step([Token(41, 0, 0)], 2, true)
  {
  }

  // ---- attributes ----

  /** An attribute that does not close uses up the text. */
  lemma {:induction false} AttrUsesUp(s: string, d: nat, inString: bool)
    requires !Attr(s, d, inString).1
    ensures Attr(s, d, inString).0 == |s|
    decreases |s|
  {
    if s != "" {
      if inString {
        if s[0] == '\\' {
          if |s| > 1 { AttrUsesUp(s[2..], d, true); }
        } else {
          AttrUsesUp(s[1..], d, s[0] != '"');
        }
      } else {
        AttrUsesUp(s[1..], if s[0] == '[' then d + 1 else if s[0] == ']' then d - 1 else d, s[0] == '"');
      }
    }
  }

  lemma AttrStringStep(s: string, d: nat)
    requires d > 0 && Attr(s, d, true).1
    ensures s != "" && (s[0] == '"' ==> Attr(s[1..], d, false).1)
    ensures s[0] != '"' ==>
      var h := FirstItem(s).Text();
      FirstItem(s).Wf() && Starts(s, h) && h != "" && Attr(s[|h|..], d, true).1
  {
  }

  /** What lies between the quotes of a string in an attribute that closes. */
  lemma {:induction false} AttrString(s: string, d: nat) returns (body: seq<StrItem>)
    requires d > 0 && Attr(s, d, true).1
    ensures WfBody(body) && Starts(s, BodyText(body) + "\"")
    ensures Attr(s[|BodyText(body)| + 1..], d, false).1
    decreases |s|
  {
    hide Attr, FirstItem, WfBody, StrItem.Text, StrItem.Wf;
    AttrStringStep(s, d);
    if s[0] == '"' {
      body := [];
      NoBody();
      assert BodyText(body) + "\"" == "\"";
    } else {
      var item := FirstItem(s);
      var h := item.Text();
      var rest := AttrString(s[|h|..], d);
      body := [item] + rest;
      BodyMore(item, rest);
      StartsAgain(s, h, BodyText(rest) + "\"");
      assert h + (BodyText(rest) + "\"") == BodyText(body) + "\"";
      assert s[|h|..][|BodyText(rest)| + 1..] == s[|BodyText(body)| + 1..];
    }
  }

  lemma Assemble(s: string, head: string, w: string)
    requires Starts(s, head) && Starts(s[|head|..], w + "]")
    ensures Starts(s, head + w + "]") && s[|head|..][|w| + 1..] == s[|head + w| + 1..]
  {
    StartsAgain(s, head, w + "]");
    assert head + (w + "]") == head + w + "]";
  }

  lemma TextOfQuoted(body: seq<StrItem>, rest: Inside)
    ensures Quoted(body, rest).Text() == ("\"" + (BodyText(body) + "\"")) + rest.Text()
  {
    assert "\"" + (BodyText(body) + ("\"" + rest.Text())) == ("\"" + (BodyText(body) + "\"")) + rest.Text();
  }

  lemma TextOfNested(inner: Inside, rest: Inside)
    ensures Nested(inner, rest).Text() == ("[" + (inner.Text() + "]")) + rest.Text()
  {
    assert "[" + (inner.Text() + ("]" + rest.Text())) == ("[" + (inner.Text() + "]")) + rest.Text();
  }

  /** What lies before the bracket that closes depth d. */
  lemma {:induction false} AttrInside(s: string, d: nat) returns (i: Inside)
    requires d > 0 && Attr(s, d, false).1
    ensures i.Wf() && Starts(s, i.Text() + "]") && Attr(s[|i.Text()| + 1..], d - 1, false).1
    decreases |s|, 1
  {
    hide Attr;
    NotEmpty(s, d);
    AttrOnce(s, d, s[1..]);
    if s[0] == ']' {
      i := Done;
      assert i.Text() + "]" == "]";
    } else if s[0] == '[' {
      i := AttrBrackets(s, d);
    } else if s[0] == '"' {
      i := AttrQuotes(s, d);
    } else {
      var rest := AttrInside(s[1..], d);
      i := Plain(s[0], rest);
      Assemble(s, [s[0]], rest.Text());
    }
  }

  lemma NotEmpty(s: string, d: nat)
    requires d > 0 && Attr(s, d, false).1
    ensures s != ""
  {
  }

  lemma {:induction false} AttrBrackets(s: string, d: nat) returns (i: Inside)
    requires d > 0 && s != "" && s[0] == '[' && Attr(s[1..], d + 1, false).1
    ensures i.Wf() && Starts(s, i.Text() + "]") && Attr(s[|i.Text()| + 1..], d - 1, false).1
    decreases |s|, 0
  {
    hide Attr, Starts, Inside.Text;
    var inner := AttrInside(s[1..], d + 1);
    var head := "[" + (inner.Text() + "]");
    HeadThen(s, '[', inner.Text() + "]");
    var rest := AttrInside(s[|head|..], d);
    i := Nested(inner, rest);
    Assemble(s, head, rest.Text());
    TextOfNested(inner, rest);
  }

  lemma {:induction false} AttrQuotes(s: string, d: nat) returns (i: Inside)
    requires d > 0 && s != "" && s[0] == '"' && Attr(s[1..], d, true).1
    ensures i.Wf() && Starts(s, i.Text() + "]") && Attr(s[|i.Text()| + 1..], d - 1, false).1
    decreases |s|, 0
  {
    hide Attr, Starts, Inside.Text, BodyText;
    var body := AttrString(s[1..], d);
    var head := "\"" + (BodyText(body) + "\"");
    HeadThen(s, '"', BodyText(body) + "\"");
    var rest := AttrInside(s[|head|..], d);
    i := Quoted(body, rest);
    Assemble(s, head, rest.Text());
    TextOfQuoted(body, rest);
  }

  lemma HeadThen(s: string, c: char, w: string)
    requires s != "" && s[0] == c && Starts(s[1..], w)
    ensures Starts(s, [c] + w) && s[1..][|w|..] == s[|[c] + w|..] && |w| + 1 <= |s|
  {
    StartsAgain(s, [c], w);
  }

  lemma InsideIsPassed(s: string, i: Inside)
    requires i.Wf() && Starts(s, "#[" + (i.Text() + "]"))
    ensures |s| >= 2 && Attr(s[2..], 1, false) == (|i.Text()| + 1, true)
  {
    hide Attr;
    var w := "#[" + (i.Text() + "]");
    var b := s[|w|..];
    assert s == w + b;
    assert s[2..] == i.Text() + ("]" + b);
    TagCloses(i, b);
  }

  /** An attribute reaches up to the bracket that balances its first one, outside its strings; without one it
      uses up the text. It never yields a token. */
  lemma AttributeMunch(s: string, base: nat) returns (i: Inside)
    requires Starts(s, "#[")
    ensures if exists b: Inside :: b.Wf() && Starts(s, "#[" + (b.Text() + "]")) then
              && i.Wf() && Starts(s, "#[" + (i.Text() + "]")) && Scan(s, base) == Step([], |i.Text()| + 3, false)
            else Scan(s, base) == Step([], |s|, true)
  {
    hide Attr;
    i := Done;
    assert s[0] == '#' && s[1] == '[' by { assert s[..2][0] == '#' && s[..2][1] == '['; }
    if Attr(s[2..], 1, false).1 {
      i := AttrInside(s[2..], 1);
      StartsAgain(s, "#[", i.Text() + "]");
      InsideIsPassed(s, i);
    } else {
      AttrUsesUp(s[2..], 1, false);
      forall b: Inside | b.Wf() && Starts(s, "#[" + (b.Text() + "]"))
        ensures false
      {
        InsideIsPassed(s, b);
      }
    }
  }
}
