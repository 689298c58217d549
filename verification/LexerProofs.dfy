/** Scanning looks no further than the separator that follows a text. */
module LexerProofs {
  import opened Numeric
  import opened Lexer

  /** x cannot continue a token that ends with a: it is empty, or starts with a space, `#`, or a `/` that
      does not follow another. */
  predicate Separates(a: string, x: string) {
    x == "" || IsSpace(x[0]) || x[0] == '#' || (x[0] == '/' && (a == "" || a[|a| - 1] != '/'))
  }

  lemma {:induction false} SpanStops(c: Class, a: string, x: string)
    requires Span(c, a) < |a| || x == "" || !c.Has(x[0])
    ensures Span(c, a + x) == Span(c, a)
  {
    hide Class.Has;
    if a == "" {
      assert a + x == x;
    } else if c.Has(a[0]) {
      SpanStops(c, a[1..], x);
      assert (a + x)[1..] == a[1..] + x;
    }
  }

  lemma {:induction false} AttrStops(a: string, d: nat, inString: bool, x: string)
    requires Attr(a, d, inString).1
    ensures Attr(a + x, d, inString) == Attr(a, d, inString)
    decreases |a|
  {
    if d != 0 {
      assert (a + x)[0] == a[0] && (a + x)[1..] == a[1..] + x;
      if inString && a[0] == '\\' {
        assert (a + x)[2..] == a[2..] + x;
        AttrStops(a[2..], d, true, x);
      } else if inString {
        AttrStops(a[1..], d, a[0] != '"', x);
      } else {
        AttrStops(a[1..], if a[0] == '[' then d + 1 else if a[0] == ']' then d - 1 else d, a[0] == '"', x);
      }
    }
  }

  /** A dot that a does not follow with a name is not followed by one in a longer text either. */
  lemma DotBefore(a: string, x: string)
    requires x == "" || !(IsIdentPart(x[0]) || x[0] == '.')
    ensures var s := a + x;
            |s| > 1 && s[0] == '.' && IsIdentStart(s[1]) <==> |a| > 1 && a[0] == '.' && IsIdentStart(a[1])
    ensures x != "" ==> !Parts.Has(x[0])
  {
  }

  lemma {:induction false} DotsStop(a: string, x: string)
    requires x == "" || !(IsIdentPart(x[0]) || x[0] == '.')
    ensures Dots(a + x) == Dots(a)
    decreases |a|
  {
    hide Span, IsIdentStart, Class.Has;
    DotBefore(a, x);
    if |a| > 1 && a[0] == '.' && IsIdentStart(a[1]) {
      assert (a + x)[1..] == a[1..] + x;
      SpanStops(Parts, a[1..], x);
      var k := 1 + Span(Parts, a[1..]);
      assert (a + x)[k..] == a[k..] + x;
      DotsStop(a[k..], x);
    }
  }

  lemma WordStops(a: string, x: string)
    requires a != "" && (x == "" || !(IsIdentPart(x[0]) || x[0] == '.'))
    ensures WordLen(a + x) == WordLen(a)
  {
    hide Span, Dots, IsIdentStart, Class.Has;
    DotBefore(a, x);
    assert (a + x)[1..] == a[1..] + x;
    SpanStops(Parts, a[1..], x);
    var k := 1 + Span(Parts, a[1..]);
    assert (a + x)[k..] == a[k..] + x;
    DotsStop(a[k..], x);
  }

  lemma {:induction false} StringStops(a: string, x: string)
    requires StringLen(a) < |a|
    ensures StringLen(a + x) == StringLen(a)
  {
    assert (a + x)[1..] == a[1..] + x;
    if a[0] == '\\' && |a| > 1 {
      assert (a + x)[2..] == a[2..] + x;
      StringStops(a[2..], x);
    } else if a[0] != '"' {
      StringStops(a[1..], x);
    }
  }

  lemma CommentStops(a: string, x: string)
    requires |a| >= 2 && !Comment(a).open
    ensures Comment(a + x) == Comment(a)
  {
    assert (a + x)[2..] == a[2..] + x;
    SpanStops(Line, a[2..], x);
  }

  lemma AttributeStops(a: string, x: string)
    requires |a| >= 2 && !Attribute(a).open
    ensures Attribute(a + x) == Attribute(a)
  {
    assert (a + x)[2..] == a[2..] + x;
    AttrStops(a[2..], 1, false, x);
  }

  lemma NumberStops(a: string, x: string)
    requires a != "" && IsDigit(a[0]) && (x == "" || !IsDigit(x[0]))
    ensures Number(a + x) == Number(a)
  {
    SpanStops(Digits, a, x);
    assert (a + x)[..Span(Digits, a)] == a[..Span(Digits, a)];
  }

  lemma WordScanStops(a: string, x: string, base: nat)
    requires a != "" && (x == "" || !(IsIdentPart(x[0]) || x[0] == '.'))
    ensures Word(a + x, base) == Word(a, base)
  {
    hide WordLen, Keyword;
    WordStops(a, x);
    assert (a + x)[..WordLen(a)] == a[..WordLen(a)];
  }

  lemma StringLitStops(a: string, x: string, base: nat)
    requires a != "" && !StringLit(a, base).open
    ensures StringLit(a + x, base) == StringLit(a, base)
  {
    assert (a + x)[1..] == a[1..] + x;
    StringStops(a[1..], x);
  }

  lemma CharStops(a: string, x: string)
    requires a != "" && !CharLit(a).open
    ensures CharLit(a + x) == CharLit(a)
  {
  }

  lemma OperatorStops(a: string, x: string)
    requires a != "" && (x == "" || x[0] !in "=>.")
    ensures Operator(a + x) == Operator(a)
  {
  }

  /** One turn of the loop does not look past a separator. */
  lemma ScanStops(a: string, x: string, base: nat)
    requires a != "" && !Scan(a, base).open && Separates(a, x)
    ensures Scan(a + x, base) == Scan(a, base)
  {
    hide Comment, Attribute, Number, Word, StringLit, CharLit, Operator;
    var b, s := a[0], a + x;
    assert s[0] == b && (|a| > 1 ==> s[1] == a[1]) && (|a| == 1 && x != "" ==> s[1] == x[0]);
    if IsSpace(b) {
    } else if b == '/' && |a| > 1 && a[1] == '/' {
      CommentStops(a, x);
    } else if b == '#' && |a| > 1 && a[1] == '[' {
      AttributeStops(a, x);
    } else if IsDigit(b) {
      NumberStops(a, x);
    } else if IsIdentStart(b) {
      WordScanStops(a, x, base);
    } else if b == '"' {
      StringLitStops(a, x, base);
    } else if b == '\'' {
      CharStops(a, x);
    } else {
      OperatorStops(a, x);
    }
  }
}
