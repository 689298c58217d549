/** The loops of the lexer. */
module LexerLoop {
  import opened Numeric
  import opened Lexer
  import opened LexerTheorems

  /** The parallel vectors of a token stream. */
  datatype TokBuf = TokBuf(kinds: seq<int>, vals: seq<int>, lens: seq<int>) {
    predicate Aligned() { |kinds| == |vals| == |lens| }

    function Tokens(): (r: seq<Token>)
      requires Aligned()
      ensures |r| == |kinds|
    {
      seq(|kinds|, i requires 0 <= i < |kinds| => Token(kinds[i], vals[i], lens[i]))
    }
  }

  method PushTok(buf: TokBuf, kind: int, val: int, len: int) returns (r: TokBuf)
    requires buf.Aligned()
    ensures r.Aligned() && r.Tokens() == buf.Tokens() + [Token(kind, val, len)]
  {
    r := buf;
    r := r.(kinds := r.kinds + [kind]);
    r := r.(vals := r.vals + [val]);
    r := r.(lens := r.lens + [len]);
  }

  method SliceEq(src: string, start: nat, len: nat, lit: string) returns (r: int)
    requires start + len <= |src|
    ensures r == if src[start..start + len] == lit then 1 else 0
  {
    if |lit| != len { return 0; }
    var i := 0;
    while i < len
      invariant i <= len && src[start..start + i] == lit[..i]
    {
      if src[start + i] != lit[i] {
        assert src[start..start + len][i] != lit[i];
        return 0;
      }
      assert src[start..start + i + 1] == src[start..start + i] + [src[start + i]];
      assert lit[..i + 1] == lit[..i] + [lit[i]];
      i := i + 1;
    }
    assert lit[..len] == lit;
    return 1;
  }

  method KeywordAt(src: string, start: nat, len: nat) returns (kind: int)
    requires start + len <= |src|
    ensures kind == Keyword(src[start..start + len])
  {
    var r := SliceEq(src, start, len, "let");
    if r == 1 { return 20; }
    r := SliceEq(src, start, len, "fn");
    if r == 1 { return 21; }
    r := SliceEq(src, start, len, "return");
    if r == 1 { return 22; }
    r := SliceEq(src, start, len, "if");
    if r == 1 { return 23; }
    r := SliceEq(src, start, len, "else");
    if r == 1 { return 24; }
    r := SliceEq(src, start, len, "while");
    if r == 1 { return 25; }
    r := SliceEq(src, start, len, "break");
    if r == 1 { return 31; }
    r := SliceEq(src, start, len, "region");
    if r == 1 { return 26; }
    r := SliceEq(src, start, len, "arena");
    if r == 1 { return 27; }
    r := SliceEq(src, start, len, "effects");
    if r == 1 { return 28; }
    r := SliceEq(src, start, len, "module");
    if r == 1 { return 29; }
    r := SliceEq(src, start, len, "import");
    if r == 1 { return 32; }
    r := SliceEq(src, start, len, "enum");
    if r == 1 { return 33; }
    r := SliceEq(src, start, len, "struct");
    if r == 1 { return 34; }
    r := SliceEq(src, start, len, "match");
    if r == 1 { return 35; }
    r := SliceEq(src, start, len, "for");
    if r == 1 { return 41; }
    r := SliceEq(src, start, len, "continue");
    if r == 1 { return 42; }
    return 30;
  }

  method SkipLine(src: string, from: nat) returns (pos: nat)
    requires from <= |src|
    ensures pos == from + Span(Line, src[from..])
  {
    pos := from;
    while pos < |src|
      invariant from <= pos <= |src|
      invariant pos + Span(Line, src[pos..]) == from + Span(Line, src[from..])
    {
      if src[pos] == '\n' { break; }
      assert src[pos..][1..] == src[pos + 1..];
      pos := pos + 1;
    }
  }

  method SkipAttr(src: string, from: nat) returns (pos: nat)
    requires from <= |src|
    ensures pos == from + Attr(src[from..], 1, false).0
  {
    pos := from;
    var depth, inString := 1, false;
    while depth > 0
      invariant from <= pos <= |src| && depth >= 0
      invariant pos + Attr(src[pos..], depth, inString).0 == from + Attr(src[from..], 1, false).0
      decreases |src| - pos, depth
    {
      if pos >= |src| { break; }
      assert src[pos..][1..] == src[pos + 1..];
      var c := src[pos];
      pos := pos + 1;
      if inString {
        if c == '\\' {
          if pos < |src| {
            assert src[pos - 1..][2..] == src[pos + 1..];
            pos := pos + 1;
          }
        } else {
          if c == '"' { inString := false; }
        }
      } else {
        if c == '"' { inString := true; }
        if c == '[' { depth := depth + 1; }
        if c == ']' { depth := depth - 1; }
      }
    }
  }

  lemma DigitsOnce(src: string, from: nat, pos: nat)
    requires from <= pos < |src| && AllDigits(src[from..pos])
    ensures if !IsDigit(src[pos]) then Span(Digits, src[pos..]) == 0
            else
              && Span(Digits, src[pos..]) == 1 + Span(Digits, src[pos + 1..]) && AllDigits(src[from..pos + 1])
              && Accumulate(src[from..pos + 1]) == I32(Accumulate(src[from..pos]) * 10 + DigitValue(src[pos]))
  {
    hide Accumulate, I32;
    if IsDigit(src[pos]) {
      assert src[pos..][1..] == src[pos + 1..];
      assert src[from..pos + 1] == src[from..pos] + [src[pos]];
      AccumulateSnoc(src, from, pos);
    }
  }

  method ScanDigits(src: string, from: nat) returns (num: int, pos: nat)
    requires from <= |src|
    ensures pos == from + Span(Digits, src[from..])
    ensures AllDigits(src[from..pos]) && num == Accumulate(src[from..pos])
  {
    hide Accumulate, I32, Span, AllDigits;
    pos, num := from, 0;
    NoDigits(src, from);
    while pos < |src|
      invariant from <= pos <= |src| && AllDigits(src[from..pos]) && num == Accumulate(src[from..pos])
      invariant pos + Span(Digits, src[pos..]) == from + Span(Digits, src[from..])
    {
      DigitsOnce(src, from, pos);
      var d := src[pos];
      if !IsDigit(d) { break; }
      num := I32(num * 10 + (d as int - '0' as int));
      pos := pos + 1;
    }
  }

  lemma NoDigits(src: string, from: nat)
    requires from <= |src|
    ensures AllDigits(src[from..from]) && Accumulate(src[from..from]) == 0
  {
  }

  method SkipParts(src: string, from: nat) returns (pos: nat)
    requires from <= |src|
    ensures pos == from + Span(Parts, src[from..])
  {
    pos := from;
    while pos < |src|
      invariant from <= pos <= |src|
      invariant pos + Span(Parts, src[pos..]) == from + Span(Parts, src[from..])
    {
      if !IsIdentPart(src[pos]) { break; }
      assert src[pos..][1..] == src[pos + 1..];
      pos := pos + 1;
    }
  }

  predicate DotAt(src: string, pos: nat) {
    pos + 1 < |src| && src[pos] == '.' && IsIdentStart(src[pos + 1])
  }

  lemma DotsOnce(src: string, pos: nat)
    requires pos <= |src|
    ensures if DotAt(src, pos) then
              var k := 1 + Span(Parts, src[pos + 1..]);
              Dots(src[pos..]) == k + Dots(src[pos + k..])
            else Dots(src[pos..]) == 0
  {
    if DotAt(src, pos) {
      assert src[pos..][1..] == src[pos + 1..];
      var k := 1 + Span(Parts, src[pos + 1..]);
      assert src[pos..][k..] == src[pos + k..];
    }
  }

  lemma WordOnce(src: string, start: nat)
    requires start < |src|
    ensures var k := 1 + Span(Parts, src[start + 1..]);
            WordLen(src[start..]) == k + Dots(src[start + k..])
  {
    assert src[start..][1..] == src[start + 1..];
    var k := 1 + Span(Parts, src[start + 1..]);
    assert src[start..][k..] == src[start + k..];
  }

  method ScanWord(src: string, start: nat) returns (end: nat)
    requires start < |src|
    ensures end == start + WordLen(src[start..])
  {
    hide Span, Dots, WordLen;
    WordOnce(src, start);
    var pos := start + 1;
    pos := SkipParts(src, pos);
    end := pos;
    while pos < |src|
      invariant start < pos == end <= |src|
      invariant pos + Dots(src[pos..]) == start + WordLen(src[start..])
    {
      DotsOnce(src, pos);
      if src[pos] != '.' { break; }
      if pos + 1 >= |src| { break; }
      if !IsIdentStart(src[pos + 1]) { break; }
      pos := SkipParts(src, pos + 1);
      end := pos;
    }
    DotsOnce(src, pos);
  }

  /** From just after the opening quote to the closing one, or the end. */
  method ScanString(src: string, start: nat) returns (pos: nat)
    requires start <= |src|
    ensures pos == start + StringLen(src[start..])
  {
    pos := start;
    while pos < |src|
      invariant start <= pos <= |src|
      invariant pos + StringLen(src[pos..]) == start + StringLen(src[start..])
    {
      var c := src[pos];
      assert src[pos..][1..] == src[pos + 1..];
      if c == '\\' {
        if pos + 1 < |src| {
          assert src[pos..][2..] == src[pos + 2..];
          pos := pos + 2;
          continue;
        }
      }
      if c == '"' { break; }
      pos := pos + 1;
    }
  }

  method ScanChar(src: string, from: nat) returns (value: int, pos: nat)
    requires from < |src|
    ensures var r := CharLit(src[from..]); r.toks == [Token(41, value, 0)] && pos == from + r.next
  {
    pos := from + 1;
    value := 0;
    if pos < |src| {
      var c := src[pos];
      if c == '\\' {
        pos := pos + 1;
        if pos < |src| {
          value := Escaped(src[pos]);
          pos := pos + 1;
        }
      } else {
        value := c as int;
        pos := pos + 1;
      }
    }
    if pos < |src| {
      if src[pos] == '\'' { pos := pos + 1; }
    }
  }

  /** The chain of operator tests; pos moves past what was read. */
  method ScanOperator(src: string, from: nat, buf0: TokBuf) returns (buf: TokBuf, pos: nat)
    requires from < |src| && buf0.Aligned()
    ensures buf.Aligned()
    ensures var r := Operator(src[from..]); buf.Tokens() == buf0.Tokens() + r.toks && pos == from + r.next
  {
    var b := src[from];
    var v := b as int;
    var n := |src|;
    buf, pos := buf0, from;
    if b == '+' {
      buf := PushTok(buf, 2, v, 0);
      pos := pos + 1;
    } else if b == '-' {
      buf := PushTok(buf, 3, v, 0);
      pos := pos + 1;
    } else if b == '*' {
      buf := PushTok(buf, 4, v, 0);
      pos := pos + 1;
    } else if b == '/' {
      buf := PushTok(buf, 5, v, 0);
      pos := pos + 1;
    } else if b == '(' {
      buf := PushTok(buf, 6, v, 0);
      pos := pos + 1;
    } else if b == ')' {
      buf := PushTok(buf, 7, v, 0);
      pos := pos + 1;
    } else if b == '{' {
      buf := PushTok(buf, 8, v, 0);
      pos := pos + 1;
    } else if b == '}' {
      buf := PushTok(buf, 9, v, 0);
      pos := pos + 1;
    } else if b == '=' {
      if pos + 1 < n {
        if src[pos + 1] == '=' {
          buf := PushTok(buf, 40, v, 0);
          pos := pos + 2;
        } else {
          if src[pos + 1] == '>' {
            buf := PushTok(buf, 36, v, 0);
            pos := pos + 2;
          } else {
            buf := PushTok(buf, 10, v, 0);
            pos := pos + 1;
          }
        }
      } else {
        buf := PushTok(buf, 10, v, 0);
        pos := pos + 1;
      }
    } else if b == ':' {
      buf := PushTok(buf, 11, v, 0);
      pos := pos + 1;
    } else if b == ',' {
      buf := PushTok(buf, 12, v, 0);
      pos := pos + 1;
    } else if b == ';' {
      buf := PushTok(buf, 13, v, 0);
      pos := pos + 1;
    } else if b == '&' {
      buf := PushTok(buf, 14, v, 0);
      pos := pos + 1;
    } else if b == '<' {
      buf, pos := ScanPair(src, pos, buf, 43, 15);
    } else if b == '>' {
      buf, pos := ScanPair(src, pos, buf, 39, 16);
    } else if b == '!' {
      buf, pos := ScanPair(src, pos, buf, 38, 52);
    } else if b == '?' {
      buf := PushTok(buf, 17, v, 0);
      pos := pos + 1;
    } else if b == '[' {
      buf := PushTok(buf, 44, v, 0);
      pos := pos + 1;
    } else if b == ']' {
      buf := PushTok(buf, 45, v, 0);
      pos := pos + 1;
    } else if b == '.' {
      if pos + 1 < n {
        if src[pos + 1] == '.' {
          buf := PushTok(buf, 46, v, 0);
          pos := pos + 2;
        } else {
          pos := pos + 1;
        }
      } else {
        pos := pos + 1;
      }
    } else if b == '@' {
      buf := PushTok(buf, 47, v, 0);
      pos := pos + 1;
    } else {
      pos := pos + 1;
    }
  }

  /** An operator that a following `=` turns into another. */
  method ScanPair(src: string, from: nat, buf0: TokBuf, pair: int, single: int) returns (buf: TokBuf, pos: nat)
    requires from < |src| && buf0.Aligned()
    ensures buf.Aligned()
    ensures var two := from + 1 < |src| && src[from + 1] == '=';
            && buf.Tokens() == buf0.Tokens() + [Token(if two then pair else single, src[from] as int, 0)]
            && pos == from + if two then 2 else 1
  {
    pos := from;
    if pos + 1 < |src| {
      if src[pos + 1] == '=' {
        buf := PushTok(buf0, pair, src[from] as int, 0);
        pos := pos + 2;
      } else {
        buf := PushTok(buf0, single, src[from] as int, 0);
        pos := pos + 1;
      }
    } else {
      buf := PushTok(buf0, single, src[from] as int, 0);
      pos := pos + 1;
    }
  }

  /** One turn of the main loop. */
  method Turn(src: string, from: nat, buf0: TokBuf) returns (buf: TokBuf, pos: nat)
    requires from < |src| && buf0.Aligned()
    ensures buf.Aligned()
    ensures var r := Scan(src[from..], from); buf.Tokens() == buf0.Tokens() + r.toks && pos == from + r.next
  {
    hide Span, Attr, WordLen, StringLen, CharLit, Operator, Keyword, Accumulate, TokBuf.Tokens;
    var n := |src|;
    ghost var s := src[from..];
    assert s[0] == src[from] && (from + 1 < n ==> s[1] == src[from + 1] && s[2..] == src[from + 2..]);
    buf, pos := buf0, from;
    var b := src[pos];
    if IsSpace(b) {
      pos := pos + 1;
    } else {
      var skip := false;
      if b == '/' {
        if pos + 1 < n {
          if src[pos + 1] == '/' {
            pos := SkipLine(src, pos + 2);
            skip := true;
          }
        }
      }
      if b == '#' {
        if pos + 1 < n {
          if src[pos + 1] == '[' {
            pos := SkipAttr(src, pos + 2);
            skip := true;
          }
        }
      }
      if !skip {
        if IsDigit(b) {
          var num;
          num, pos := ScanDigits(src, pos);
          assert src[from..pos] == s[..pos - from];
          buf := PushTok(buf, 1, num, 0);
        } else if IsIdentStart(b) {
          pos := ScanWord(src, from);
          assert src[from..pos] == s[..pos - from];
          var kind := KeywordAt(src, from, pos - from);
          buf := PushTok(buf, kind, from, pos - from);
        } else if b == '"' {
          assert s[1..] == src[from + 1..];
          pos := ScanString(src, from + 1);
          if pos < n {
            buf := PushTok(buf, 37, from + 1, pos - (from + 1));
            pos := pos + 1;
          } else {
            pos := pos + 1;
          }
        } else if b == '\'' {
          var value;
          value, pos := ScanChar(src, pos);
          buf := PushTok(buf, 41, value, 0);
        } else {
          buf, pos := ScanOperator(src, pos, buf);
        }
      }
    }
  }

  /** The main loop builds the token stream. */
  method LexSource(src: string) returns (buf: TokBuf)
    ensures buf.Aligned() && buf.Tokens() == Lex(src, 0)
  {
    hide Scan, Lex, TokBuf.Tokens;
    buf := TokBuf([], [], []);
    var pos := 0;
    while pos < |src|
      invariant buf.Aligned() && Lex(src, 0) == buf.Tokens() + Lex(Rest(src, pos), pos)
      decreases |src| - pos
    {
      LexOnce(src[pos..], pos);
      ghost var r := Scan(src[pos..], pos);
      assert Rest(src[pos..], r.next) == Rest(src, pos + r.next);
      buf, pos := Turn(src, pos, buf);
    }
    LexEmpty(pos);
  }
}
