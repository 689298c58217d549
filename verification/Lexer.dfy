/** The fx lexer of compiler-source/lib/sh_lexer.fx: the scan of one token or one piece of trivia from the
    front of a text, and the token stream of a whole text. A string stands for its bytes. */
module Lexer {
  import opened Numeric
  import opened Wrappers

  /** An entry of the parallel kind, val and len vectors. */
  datatype Token = Token(kind: int, val: int, len: int)

  /** What one turn of the main loop does at the front of a text: the tokens it pushes, how far it moves, and
      whether it ran into the end of the text inside a string, char literal, comment or attribute. */
  datatype Step = Step(toks: seq<Token>, next: nat, open: bool)

  predicate IsSpace(b: char) { b == ' ' || b == '\t' || b == '\n' || b == '\r' }
  predicate IsIdentStart(b: char) { 'a' <= b <= 'z' || 'A' <= b <= 'Z' || b == '_' }
  predicate IsIdentPart(b: char) { IsIdentStart(b) || IsDigit(b) }

  const LOWER := "abcdefghijklmnopqrstuvwxyz"
  const UPPER := "ABCDEFGHIJKLMNOPQRSTUVWXYZ"

  /** The character classes, spelled out. */
  lemma ClassTable(c: char)
    ensures IsSpace(c) <==> c in " \t\n\r"
    ensures IsIdentStart(c) <==> c in LOWER + UPPER + "_"
    ensures IsIdentPart(c) <==> c in LOWER + UPPER + "_" + DIGITS
  {
    hide IsDigit;
    DigitTable(c);
    LetterTable(c);
  }

  lemma LetterTable(c: char)
    ensures c in LOWER <==> 'a' <= c <= 'z'
    ensures c in UPPER <==> 'A' <= c <= 'Z'
  {
    hide LOWER, UPPER;
    LowerIs();
    UpperIs();
    if 'a' <= c <= 'z' { assert LOWER[c as int - 'a' as int] == c; }
    if 'A' <= c <= 'Z' { assert UPPER[c as int - 'A' as int] == c; }
  }

  lemma LowerIs()
    ensures |LOWER| == 26 && forall k :: 0 <= k < 26 ==> LOWER[k] as int == 'a' as int + k
  {
  }

  lemma UpperIs()
    ensures |UPPER| == 26 && forall k :: 0 <= k < 26 ==> UPPER[k] as int == 'A' as int + k
  {
  }

  /** The runs of characters that the inner loops skip. */
  datatype Class = Digits | Parts | Line {
    predicate Has(b: char) {
      match this
      case Digits => IsDigit(b)
      case Parts => IsIdentPart(b)
      case Line => b != '\n'
    }
  }

  function Span(c: Class, s: string): (n: nat)
    ensures n <= |s|
  {
    if s == "" || !c.Has(s[0]) then 0 else 1 + Span(c, s[1..])
  }

  lemma SpanHas(c: Class, s: string)
    ensures forall i :: 0 <= i < Span(c, s) ==> c.Has(s[i])
    ensures Span(c, s) < |s| ==> !c.Has(s[Span(c, s)])
  {
    if s != "" && c.Has(s[0]) { SpanHas(c, s[1..]); }
  }

  /** The inside of `#[...]` at nesting depth d, in or out of a string: how far it goes, and whether it closes. */
  function Attr(s: string, d: nat, inString: bool): (r: (nat, bool))
    ensures r.0 <= |s|
    decreases |s|
  {
    if d == 0 then (0, true)
    else if s == "" then (0, false)
    else if inString then
      if s[0] == '\\' then
        if |s| > 1 then var r := Attr(s[2..], d, true); (2 + r.0, r.1) else (1, false)
      else var r := Attr(s[1..], d, s[0] != '"'); (1 + r.0, r.1)
    else
      var e := if s[0] == '[' then d + 1 else if s[0] == ']' then d - 1 else d;
      var r := Attr(s[1..], e, s[0] == '"'); (1 + r.0, r.1)
  }

  /** The `.name` parts after the first name of a dotted identifier. */
  function Dots(s: string): (n: nat)
    ensures n <= |s|
  {
    if |s| > 1 && s[0] == '.' && IsIdentStart(s[1]) then
      var k := 1 + Span(Parts, s[1..]);
      k + Dots(s[k..])
    else 0
  }

  function WordLen(s: string): (n: nat)
    requires s != ""
    ensures 1 <= n <= |s|
  {
    var k := 1 + Span(Parts, s[1..]);
    k + Dots(s[k..])
  }

  /** The inside of a string literal up to its closing quote or the end of the text. */
  function StringLen(s: string): (n: nat)
    ensures n <= |s| && (n < |s| ==> s[n] == '"')
  {
    if s == "" then 0
    else if s[0] == '\\' && |s| > 1 then 2 + StringLen(s[2..])
    else if s[0] == '"' then 0
    else 1 + StringLen(s[1..])
  }

  function Escaped(e: char): int {
    if e == 'n' then 10 else if e == 't' then 9 else if e == 'r' then 13 else if e == '0' then 0
    else if e == '\\' then 92 else if e == '\'' then 39 else if e == '"' then 34 else e as int
  }

  /** A char literal, with its closing quote if it has one. */
  function CharLit(s: string): Step
    requires s != ""
  {
    var (value, n) :=
      if |s| == 1 then (0, 1)
      else if s[1] != '\\' then (s[1] as int, 2)
      else if |s| == 2 then (0, 2)
      else (Escaped(s[2]), 3);
    Step([Token(41, value, 0)], if n < |s| && s[n] == '\'' then n + 1 else n, n >= |s|)
  }

  function Keyword(w: string): int {
    if w == "let" then 20 else if w == "fn" then 21 else if w == "return" then 22 else if w == "if" then 23
    else if w == "else" then 24 else if w == "while" then 25 else if w == "break" then 31
    else if w == "region" then 26 else if w == "arena" then 27 else if w == "effects" then 28
    else if w == "module" then 29 else if w == "import" then 32 else if w == "enum" then 33
    else if w == "struct" then 34 else if w == "match" then 35 else if w == "for" then 41
    else if w == "continue" then 42 else 30
  }

  function One(kind: int, b: char): Step { Step([Token(kind, b as int, 0)], 1, false) }
  function Two(kind: int, b: char): Step { Step([Token(kind, b as int, 0)], 2, false) }

  /** One- and two-character operators; any other character is skipped. */
  function Operator(s: string): (r: Step)
    requires s != ""
    ensures 1 <= r.next <= 2 && r.next <= |s| && |r.toks| <= 1 && !r.open
  {
    var b := s[0];
    var c := if |s| > 1 then s[1] else ' ';
    match b
    case '+' => One(2, b)
    case '-' => One(3, b)
    case '*' => One(4, b)
    case '/' => One(5, b)
    case '(' => One(6, b)
    case ')' => One(7, b)
    case '{' => One(8, b)
    case '}' => One(9, b)
    case '=' => if c == '=' then Two(40, b) else if c == '>' then Two(36, b) else One(10, b)
    case ':' => One(11, b)
    case ',' => One(12, b)
    case ';' => One(13, b)
    case '&' => One(14, b)
    case '<' => if c == '=' then Two(43, b) else One(15, b)
    case '>' => if c == '=' then Two(39, b) else One(16, b)
    case '!' => if c == '=' then Two(38, b) else One(52, b)
    case '?' => One(17, b)
    case '[' => One(44, b)
    case ']' => One(45, b)
    case '.' => if c == '.' then Two(46, b) else Step([], 1, false)
    case '@' => One(47, b)
    case _ => Step([], 1, false)
  }

  /** A line comment, up to its newline. */
  function Comment(s: string): (r: Step)
    requires |s| >= 2
    ensures r.next >= 1 && (!r.open ==> r.next <= |s|)
  {
    var n := 2 + Span(Line, s[2..]);
    Step([], n, n == |s|)
  }

  function Attribute(s: string): (r: Step)
    requires |s| >= 2
    ensures r.next >= 1 && (!r.open ==> r.next <= |s|)
  {
    var r := Attr(s[2..], 1, false);
    Step([], 2 + r.0, !r.1)
  }

  function Number(s: string): (r: Step)
    requires s != "" && IsDigit(s[0])
    ensures r.next >= 1 && (!r.open ==> r.next <= |s|)
  {
    var n := Span(Digits, s);
    SpanHas(Digits, s);
    Step([Token(1, Accumulate(s[..n]), 0)], n, false)
  }

  function Word(s: string, base: nat): (r: Step)
    requires s != ""
    ensures r.next >= 1 && (!r.open ==> r.next <= |s|)
  {
    var n := WordLen(s);
    Step([Token(Keyword(s[..n]), base, n)], n, false)
  }

  /** A string literal; an unterminated one pushes nothing. */
  function StringLit(s: string, base: nat): (r: Step)
    requires s != ""
    ensures r.next >= 1 && (!r.open ==> r.next <= |s|)
  {
    var k := StringLen(s[1..]);
    if 1 + k < |s| then Step([Token(37, base + 1, k)], k + 2, false) else Step([], k + 2, true)
  }

  /** One turn of the main loop on the text s, which starts at position base of the source. */
  function Scan(s: string, base: nat): (r: Step)
    requires s != ""
    ensures r.next >= 1 && (!r.open ==> r.next <= |s|)
  {
    var b := s[0];
    if IsSpace(b) then Step([], 1, false)
    else if b == '/' && |s| > 1 && s[1] == '/' then Comment(s)
    else if b == '#' && |s| > 1 && s[1] == '[' then Attribute(s)
    else if IsDigit(b) then Number(s)
    else if IsIdentStart(b) then Word(s, base)
    else if b == '"' then StringLit(s, base)
    else if b == '\'' then CharLit(s)
    else Operator(s)
  }

  /** What is left after a step; an unterminated string steps past the end. */
  function Rest(s: string, n: nat): (r: string)
    ensures n >= 1 && s != "" ==> |r| < |s|
  {
    if n <= |s| then s[n..] else ""
  }

  /** The tokens of the text s, which starts at position base of the source. */
  function Lex(s: string, base: nat): seq<Token>
    decreases |s|
  {
    if s == "" then []
    else
      var r := Scan(s, base);
      r.toks + Lex(Rest(s, r.next), base + r.next)
  }

  /** The text ends outside every string, char literal, comment and attribute. */
  predicate Closed(s: string)
    decreases |s|
  {
    s == "" || (!Scan(s, 0).open && Closed(s[Scan(s, 0).next..]))
  }

  /** The bytes that ident_char_str can give back. */
  predicate Emits(b: char) {
    || '0' <= b <= '9' || 'A' <= b <= 'Z' || 'a' <= b <= 'z'
    || b in {' ', '"', '#', '&', '(', ')', '*', ',', ':', ';', '@', '+', '-', '=', '<', '>', '{', '}'}
    || b in {'\\', '|', '_', '.', '/'}
  }

  lemma EmitTable(c: char)
    ensures Emits(c) <==> c in LOWER + UPPER + DIGITS + " \"#&()*+,-./:;<=>@\\_{|}"
  {
    hide IsDigit;
    DigitTable(c);
    LetterTable(c);
  }

  /** slice_str: the slice rebuilt byte by byte, or none at the first byte that cannot be given back. */
  function SliceStr(src: string, start: nat, len: nat): Option<string>
    requires start + len <= |src|
    decreases len
  {
    if len == 0 then Some("")
    else if !Emits(src[start]) then None
    else if len == 1 then Some([src[start]])
    else
      match SliceStr(src, start + 1, len - 1)
      case None => None
      case Some(tail) => Some([src[start]] + tail)
  }
}
