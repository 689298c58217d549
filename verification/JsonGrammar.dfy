/** The byte-level grammar of RFC 8259, sections 2 to 7, as concrete syntax trees: a text derives
    from a rule exactly when it is the text of a well-formed tree. A char stands for one byte. */
module JsonGrammar {
  import opened Numeric

  // ---- section 7: strings ----
  datatype StrChar = Plain(c: char) | Escape(c: char) | Unicode(hex: string)

  predicate IsHex(c: char) { IsDigit(c) || 'a' <= c <= 'f' || 'A' <= c <= 'F' }

  predicate IsEscape(c: char) {
    c == '"' || c == '\\' || c == '/' || c == 'b' || c == 'f' || c == 'n' || c == 'r' || c == 't'
  }

  predicate WfChar(s: StrChar) {
    match s
    case Plain(c) => ' ' <= c && c != '"' && c != '\\'
    case Escape(c) => IsEscape(c)
    case Unicode(h) => |h| == 4 && IsHex(h[0]) && IsHex(h[1]) && IsHex(h[2]) && IsHex(h[3])
  }

  function CharText(s: StrChar): string {
    match s
    case Plain(c) => [c]
    case Escape(c) => ['\\', c]
    case Unicode(h) => ['\\', 'u'] + h
  }

  predicate WfChars(cs: seq<StrChar>) { forall k :: 0 <= k < |cs| ==> WfChar(cs[k]) }

  function CharsText(cs: seq<StrChar>): string {
    if cs == [] then "" else CharText(cs[0]) + CharsText(cs[1..])
  }

  /** A string from behind its opening quote on. */
  function Closed(cs: seq<StrChar>): string { CharsText(cs) + ['"'] }

  // ---- section 6: numbers ----
  datatype Exponent = NoExp | Exp(mark: char, sign: string, digits: string)
  /** An empty frac means that there is no fraction part. */
  datatype Number = Number(neg: bool, whole: string, frac: string, exp: Exponent)

  predicate WfExp(x: Exponent) {
    x.Exp? ==>
      && (x.mark == 'e' || x.mark == 'E')
      && (x.sign == "" || x.sign == ['+'] || x.sign == ['-'])
      && x.digits != "" && AllDigits(x.digits)
  }

  predicate WfNumber(n: Number) {
    && n.whole != "" && AllDigits(n.whole) && (n.whole[0] == '0' ==> |n.whole| == 1)
    && AllDigits(n.frac)
    && WfExp(n.exp)
  }

  function SignText(neg: bool): string { if neg then ['-'] else "" }
  function FracText(frac: string): string { if frac == "" then "" else ['.'] + frac }
  function ExpText(x: Exponent): string {
    match x
    case NoExp => ""
    case Exp(mark, sign, digits) => [mark] + (sign + digits)
  }

  function TailText(n: Number): string { FracText(n.frac) + ExpText(n.exp) }
  function NumberText(n: Number): string { SignText(n.neg) + (n.whole + TailText(n)) }

  /** The signed value of the integer part; the validator records nothing of the other parts. */
  function WholeValue(n: Number): int
    requires WfNumber(n)
  {
    if n.neg then 0 - Decimal(n.whole) else Decimal(n.whole)
  }

  // ---- sections 2 to 5: values, arrays, objects ----
  predicate IsSpace(c: char) { c == ' ' || c == '\t' || c == '\n' || c == '\r' }
  predicate IsWs(s: string) { forall k :: 0 <= k < |s| ==> IsSpace(s[k]) }

  /** The character classes of the grammar, spelled out. */
  lemma ClassTable(c: char)
    ensures IsSpace(c) <==> c in " \t\n\r"
    ensures IsHex(c) <==> c in "0123456789abcdefABCDEF"
    ensures IsEscape(c) <==> c in "\"\\/bfnrt"
    ensures WfChar(Plain(c)) <==> c as int >= 32 && c !in "\"\\"
  {
    hide IsDigit;
    DigitTable(c);
    assert c in "0123456789abcdefABCDEF" <==> c in DIGITS || c in "abcdefABCDEF" by {
      assert "0123456789abcdefABCDEF" == DIGITS + "abcdefABCDEF";
    }
  }

  datatype Value =
    | Null | True | False
    | Num(n: Number)
    | Str(cs: seq<StrChar>)
    | EmptyArr(ws: string)
    | Arr(es: Elements)
    | EmptyObj(ws: string)
    | Obj(ms: Members)

  /** A value with the white space around it. */
  datatype Element = Element(pre: string, v: Value, post: string)

  datatype Elements = Last(e: Element) | More(e: Element, rest: Elements)

  datatype Members =
    | LastM(pre: string, key: seq<StrChar>, mid: string, e: Element)
    | MoreM(pre: string, key: seq<StrChar>, mid: string, e: Element, more: Members)

  predicate WfValue(v: Value) {
    match v
    case Num(n) => WfNumber(n)
    case Str(cs) => WfChars(cs)
    case EmptyArr(ws) => IsWs(ws)
    case EmptyObj(ws) => IsWs(ws)
    case Arr(es) => WfElements(es)
    case Obj(ms) => WfMembers(ms)
    case _ => true
  }

  predicate WfElements(es: Elements) {
    && IsWs(es.e.pre) && WfValue(es.e.v) && IsWs(es.e.post)
    && (es.More? ==> WfElements(es.rest))
  }

  predicate WfMembers(ms: Members) {
    && IsWs(ms.pre) && WfChars(ms.key) && IsWs(ms.mid)
    && IsWs(ms.e.pre) && WfValue(ms.e.v) && IsWs(ms.e.post)
    && (ms.MoreM? ==> WfMembers(ms.more))
  }

  predicate WfElement(e: Element) { IsWs(e.pre) && WfValue(e.v) && IsWs(e.post) }

  function Text(v: Value): string {
    match v
    case Null => "null"
    case True => "true"
    case False => "false"
    case Num(n) => NumberText(n)
    case Str(cs) => ['"'] + Closed(cs)
    case EmptyArr(ws) => ['['] + (ws + [']'])
    case EmptyObj(ws) => ['{'] + (ws + ['}'])
    case Arr(es) => ['['] + ElementsText(es)
    case Obj(ms) => ['{'] + MembersText(ms)
  }

  function ElementText(e: Element): string { e.pre + (Text(e.v) + e.post) }

  /** The elements and the bracket that closes them. */
  function ElementsText(es: Elements): string {
    ElementText(es.e) + (if es.Last? then [']'] else [','] + ElementsText(es.rest))
  }

  function KeyText(pre: string, key: seq<StrChar>, mid: string): string {
    pre + (['"'] + (Closed(key) + (mid + [':'])))
  }

  function MembersText(ms: Members): string {
    KeyText(ms.pre, ms.key, ms.mid) +
    (ElementText(ms.e) + (if ms.LastM? then ['}'] else [','] + MembersText(ms.more)))
  }

  /** Nesting height: 0 for scalars and empty containers. */
  function Height(v: Value): nat {
    match v
    case Arr(es) => 1 + ElementsHeight(es)
    case Obj(ms) => 1 + MembersHeight(ms)
    case _ => 0
  }

  function Max(a: nat, b: nat): nat { if a < b then b else a }

  function ElementsHeight(es: Elements): nat {
    if es.Last? then Height(es.e.v) else Max(Height(es.e.v), ElementsHeight(es.rest))
  }

  function MembersHeight(ms: Members): nat {
    if ms.LastM? then Height(ms.e.v) else Max(Height(ms.e.v), MembersHeight(ms.more))
  }

  function ElementList(es: Elements): seq<Value> {
    [es.e.v] + if es.Last? then [] else ElementList(es.rest)
  }

  function MemberList(ms: Members): seq<Value> {
    [ms.e.v] + if ms.LastM? then [] else MemberList(ms.more)
  }

  /** The values directly inside an array or object. */
  function Inner(v: Value): seq<Value> {
    match v
    case Arr(es) => ElementList(es)
    case Obj(ms) => MemberList(ms)
    case _ => []
  }

  lemma {:induction false} ElementsHeightIsMax(es: Elements)
    ensures forall w :: w in ElementList(es) ==> Height(w) <= ElementsHeight(es)
    ensures exists w :: w in ElementList(es) && Height(w) == ElementsHeight(es)
    decreases es
  {
    hide Height;
    assert es.e.v in ElementList(es);
    if es.More? { ElementsHeightIsMax(es.rest); }
  }

  lemma {:induction false} MembersHeightIsMax(ms: Members)
    ensures forall w :: w in MemberList(ms) ==> Height(w) <= MembersHeight(ms)
    ensures exists w :: w in MemberList(ms) && Height(w) == MembersHeight(ms)
    decreases ms
  {
    hide Height;
    assert ms.e.v in MemberList(ms);
    if ms.MoreM? { MembersHeightIsMax(ms.more); }
  }

  /** The height counts levels: 0 without values inside, and one more than the highest value inside otherwise. */
  lemma HeightCountsLevels(v: Value)
    ensures Inner(v) == [] ==> Height(v) == 0
    ensures forall w :: w in Inner(v) ==> Height(w) < Height(v)
    ensures Inner(v) != [] ==> exists w :: w in Inner(v) && Height(v) == Height(w) + 1
  {
    match v
    case Arr(es) => ElementsHeightIsMax(es);
    case Obj(ms) => MembersHeightIsMax(ms);
    case _ =>
  }

  const MAX_DEPTH: nat := 400

  /** A JSON text is one value between white space. */
  ghost predicate Derives(d: Element, src: string) { WfElement(d) && ElementText(d) == src }

  /** src is a JSON text that nests no deeper than the limit. */
  ghost predicate IsJsonText(src: string) {
    exists d :: Derives(d, src) && Height(d.v) <= 400
  }
}
