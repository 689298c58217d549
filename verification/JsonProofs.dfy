/** The parser functions accept exactly the grammar, and undo printing. */
module JsonProofs {
  import opened Numeric
  import opened JsonGrammar
  import opened JsonParser

  // ---- positions in a text ----

  lemma {:induction false} AtConcat(src: string, i: int, a: string, b: string)
    ensures At(src, i, a + b) <==> At(src, i, a) && At(src, i + |a|, b)
    decreases |a|
  {
    if a == "" {
      assert a + b == b;
      if At(src, i, b) { AtBounds(src, i, b); }
    } else {
      assert (a + b)[1..] == a[1..] + b;
      AtConcat(src, i + 1, a[1..], b);
    }
  }

  lemma {:induction false} AtBounds(src: string, i: int, w: string)
    requires At(src, i, w)
    ensures 0 <= i && i + |w| <= |src| && src[i..i + |w|] == w
    decreases |w|
  {
    if w != "" {
      AtBounds(src, i + 1, w[1..]);
      assert src[i..i + |w|] == [src[i]] + src[i + 1..i + |w|];
    }
  }

  lemma AtEmpty(src: string, i: int)
    requires 0 <= i <= |src|
    ensures At(src, i, "")
  {
  }

  lemma AtOne(src: string, i: int)
    requires 0 <= i < |src|
    ensures At(src, i, [src[i]])
  {
    assert [src[i]][1..] == "";
  }

  lemma {:induction false} AtSlice(src: string, i: nat, j: nat)
    requires i <= j <= |src|
    ensures At(src, i, src[i..j])
    decreases j - i
  {
    if i < j {
      assert src[i..j][1..] == src[i + 1..j];
      AtSlice(src, i + 1, j);
    }
  }

  lemma AtCons(src: string, i: int, c: char, b: string)
    ensures At(src, i, [c] + b) <==> 0 <= i < |src| && src[i] == c && At(src, i + 1, b)
  {
    assert ([c] + b)[1..] == b;
  }

  /** A byte that cannot extend a number. */
  predicate EndsNumber(src: string, e: nat) {
    e < |src| ==> !IsDigit(src[e]) && src[e] != '.' && src[e] != 'e' && src[e] != 'E'
  }

  lemma {:induction false} SkipWsOver(src: string, i: nat, ws: string)
    requires At(src, i, ws) && IsWs(ws)
    requires i + |ws| < |src| ==> !IsSpace(src[i + |ws|])
    ensures SkipWs(src, i) == i + |ws|
    decreases |ws|
  {
    AtBounds(src, i, ws);
    if ws != "" {
      SkipWsOver(src, i + 1, ws[1..]);
    }
  }

  lemma {:induction false} DigitsLongest(src: string, i: nat, ds: string)
    requires At(src, i, ds) && AllDigits(ds)
    ensures i + |ds| <= SkipDigits(src, i)
    decreases |ds|
  {
    AtBounds(src, i, ds);
    if ds != "" {
      DigitsLongest(src, i + 1, ds[1..]);
    }
  }

  lemma SkipDigitsOver(src: string, i: nat, ds: string)
    requires At(src, i, ds) && AllDigits(ds)
    requires i + |ds| < |src| ==> !IsDigit(src[i + |ds|])
    ensures SkipDigits(src, i) == i + |ds|
  {
    DigitsLongest(src, i, ds);
  }

  // ---- strings ----

  lemma AtChar(src: string, i: nat, c: StrChar, rest: string)
    requires WfChar(c) && At(src, i, CharText(c) + rest)
    ensures At(src, i + |CharText(c)|, rest)
    ensures src[i] == CharText(c)[0]
    ensures !c.Plain? ==> src[i + 1] == CharText(c)[1]
    ensures c.Unicode? ==>
      src[i + 2] == c.hex[0] && src[i + 3] == c.hex[1] && src[i + 4] == c.hex[2] && src[i + 5] == c.hex[3]
  {
    hide At;
    var t := CharText(c);
    AtConcat(src, i, t, rest);
    AtBounds(src, i, t);
    var s := src[i..i + |t|];
    assert s[0] == t[0] && (!c.Plain? ==> s[1] == t[1]);
    assert c.Unicode? ==> s[2] == t[2] && s[3] == t[3] && s[4] == t[4] && s[5] == t[5];
  }

  /** One well-formed character is scanned as a whole. */
  lemma CharComplete(src: string, i: nat, c: StrChar, rest: string)
    requires WfChar(c) && At(src, i, CharText(c) + rest)
    ensures i + |CharText(c)| <= |src| && At(src, i + |CharText(c)|, rest)
    ensures ScanString(src, i) == ScanString(src, i + |CharText(c)|)
  {
    hide At;
    AtChar(src, i, c, rest);
    AtBounds(src, i + |CharText(c)|, rest);
  }

  lemma {:induction false} ScanStringComplete(src: string, i: nat, cs: seq<StrChar>)
    requires WfChars(cs) && At(src, i, Closed(cs))
    ensures ScanString(src, i) == Scan(i + |Closed(cs)|, true)
    decreases |cs|
  {
    hide At, CharText;
    if cs == [] {
      assert Closed(cs) == ['"'];
      AtBounds(src, i, Closed(cs));
    } else {
      var t := CharText(cs[0]);
      assert Closed(cs) == t + Closed(cs[1..]);
      assert WfChar(cs[0]);
      CharComplete(src, i, cs[0], Closed(cs[1..]));
      ScanStringComplete(src, i + |t|, cs[1..]);
    }
  }

  lemma CharSound(src: string, i: nat) returns (c: StrChar)
    requires i < |src| && src[i] != '"' && ScanString(src, i).ok
    ensures WfChar(c) && i + |CharText(c)| <= |src| && src[i..i + |CharText(c)|] == CharText(c)
    ensures ScanString(src, i) == ScanString(src, i + |CharText(c)|)
  {
    c := if src[i] != '\\' then Plain(src[i])
         else if src[i + 1] == 'u' then Unicode(src[i + 2..i + 6])
         else Escape(src[i + 1]);
  }

  lemma {:induction false} ScanStringSound(src: string, i: nat) returns (cs: seq<StrChar>)
    requires i <= |src| && ScanString(src, i).ok
    ensures WfChars(cs) && At(src, i, Closed(cs)) && ScanString(src, i).pos == i + |Closed(cs)|
    decreases |src| - i
  {
    hide At;
    if src[i] == '"' {
      cs := [];
      AtOne(src, i);
      assert Closed(cs) == ['"'];
    } else {
      var c := CharSound(src, i);
      var j := i + |CharText(c)|;
      var rest := ScanStringSound(src, j);
      cs := [c] + rest;
      assert Closed(cs) == CharText(c) + Closed(rest);
      AtSlice(src, i, j);
      AtConcat(src, i, CharText(c), Closed(rest));
    }
  }

  // ---- numbers ----

  /** The node of a number carries its integer part modulo 2^32, whatever fraction and exponent. */
  function NumberNode(n: Number): Node
    requires WfNumber(n)
  {
    Node(3, I32(WholeValue(n)))
  }

  lemma SignedAccumulate(n: Number)
    requires WfNumber(n)
    ensures Signed(n.neg, Accumulate(n.whole)) == I32(WholeValue(n))
  {
    AccumulateIsDecimal(n.whole);
    var d := Decimal(n.whole);
    var k := (I32(d) - d) / TWO32;
    assert I32(d) == d + k * TWO32;
    assert -I32(d) == -d + (-k) * TWO32;
    I32Shift(-d, -k);
    I32Shift(d, k);
  }

  lemma ScanFracComplete(src: string, i: nat, frac: string)
    requires At(src, i, FracText(frac)) && AllDigits(frac)
    requires var e := i + |FracText(frac)|; e < |src| ==> !IsDigit(src[e]) && src[e] != '.'
    ensures ScanFrac(src, i) == Scan(i + |FracText(frac)|, true)
  {
    hide At, SkipDigits;
    FracFirst(src, i, frac);
    if frac != "" {
      SkipDigitsOver(src, i + 1, frac);
    }
  }

  lemma AtFirst(src: string, i: int, w: string)
    requires At(src, i, w) && w != ""
    ensures 0 <= i < |src| && src[i] == w[0]
  {
  }

  lemma DigitsFirst(s: string)
    requires AllDigits(s) && s != ""
    ensures IsDigit(s[0])
  {
  }

  lemma ExpParts(src: string, i: nat, x: Exponent)
    requires At(src, i, ExpText(x)) && x.Exp? && WfExp(x)
    ensures var j := i + 1 + |x.sign|;
            && At(src, j, x.digits) && IsDigit(src[j]) && src[i] == x.mark
            && (x.sign != "" ==> src[i + 1] == x.sign[0])
  {
    hide At, WfExp, AllDigits;
    ExpShape(x);
    DigitsFirst(x.digits);
    var j := i + 1 + |x.sign|;
    AtCons(src, i, x.mark, x.sign + x.digits);
    AtConcat(src, i + 1, x.sign, x.digits);
    AtFirst(src, j, x.digits);
    if x.sign != "" { AtFirst(src, i + 1, x.sign); }
  }

  lemma ExpShape(x: Exponent)
    requires WfExp(x)
    ensures x.NoExp? ==> ExpText(x) == ""
    ensures x.Exp? ==>
      && |ExpText(x)| == 1 + |x.sign| + |x.digits| && AllDigits(x.digits) && x.digits != ""
      && (x.mark == 'e' || x.mark == 'E') && (x.sign != "" ==> |x.sign| == 1 && (x.sign[0] == '+' || x.sign[0] == '-'))
  {
  }

  lemma ScanExpComplete(src: string, i: nat, x: Exponent)
    requires At(src, i, ExpText(x)) && WfExp(x) && EndsNumber(src, i + |ExpText(x)|)
    ensures ScanExp(src, i) == Scan(i + |ExpText(x)|, true)
  {
    hide At, SkipDigits, WfExp, ExpText, AllDigits;
    ExpShape(x);
    if x.Exp? {
      ExpParts(src, i, x);
      SkipDigitsOver(src, i + 1 + |x.sign|, x.digits);
    }
  }

  lemma ScanWholeComplete(src: string, i: nat, whole: string)
    requires At(src, i, whole) && AllDigits(whole) && whole != "" && (whole[0] == '0' ==> |whole| == 1)
    requires i + |whole| < |src| ==> !IsDigit(src[i + |whole|])
    ensures ScanWhole(src, i) == Scan(i + |whole|, true)
    ensures src[i..i + |whole|] == whole
  {
    hide At, SkipDigits;
    AtBounds(src, i, whole);
    if src[i] != '0' {
      SkipDigitsOver(src, i, whole);
    }
  }

  /** Where the integer part and the tail of a number lie. */
  lemma NumberParts(src: string, i: nat, n: Number) returns (s: nat, w: nat)
    requires At(src, i, NumberText(n)) && WfNumber(n)
    ensures s == i + |SignText(n.neg)| && w == s + |n.whole| && w + |TailText(n)| == i + |NumberText(n)| <= |src|
    ensures At(src, s, n.whole) && At(src, w, TailText(n))
    ensures src[s] == n.whole[0] && (n.neg <==> src[i] == '-')
  {
    hide At;
    s := i + |SignText(n.neg)|;
    w := s + |n.whole|;
    AtConcat(src, i, SignText(n.neg), n.whole + TailText(n));
    AtConcat(src, s, n.whole, TailText(n));
    AtBounds(src, i, SignText(n.neg));
    AtBounds(src, s, n.whole);
    AtBounds(src, w, TailText(n));
  }

  lemma FracFirst(src: string, i: nat, frac: string)
    requires At(src, i, FracText(frac))
    ensures if frac == "" then FracText(frac) == "" else At(src, i + 1, frac) && 0 <= i < |src| && src[i] == '.'
  {
    hide At;
    if frac != "" { AtCons(src, i, '.', frac); }
  }

  /** Where the fraction and the exponent lie, and how each begins. */
  lemma TailParts(src: string, i: nat, n: Number) returns (f: nat)
    requires At(src, i, TailText(n)) && WfNumber(n)
    ensures f == i + |FracText(n.frac)| && f + |ExpText(n.exp)| == i + |TailText(n)| <= |src|
    ensures At(src, i, FracText(n.frac)) && At(src, f, ExpText(n.exp))
    ensures if n.frac == "" then f == i else src[i] == '.'
    ensures if n.exp.Exp? then f < |src| && src[f] == n.exp.mark else f == i + |TailText(n)|
  {
    hide At, FracText;
    f := i + |FracText(n.frac)|;
    AtConcat(src, i, FracText(n.frac), ExpText(n.exp));
    FracFirst(src, i, n.frac);
    AtBounds(src, f, ExpText(n.exp));
    if n.exp.Exp? { ExpParts(src, f, n.exp); }
  }

  lemma ScanTailComplete(src: string, i: nat, n: Number)
    requires WfNumber(n) && At(src, i, TailText(n)) && EndsNumber(src, i + |TailText(n)|)
    ensures ScanTail(src, i) == Scan(i + |TailText(n)|, true)
    ensures i < |src| ==> !IsDigit(src[i])
  {
    hide At, ScanFrac, ScanExp, TailText, FracText, ExpText;
    var f := TailParts(src, i, n);
    ScanFracComplete(src, i, n.frac);
    ScanExpComplete(src, f, n.exp);
  }

  lemma ScanNumberComplete(src: string, pos: nat, n: Number)
    requires WfNumber(n) && At(src, pos, NumberText(n)) && EndsNumber(src, pos + |NumberText(n)|)
    ensures var s := pos + |SignText(n.neg)|; var w := s + |n.whole|;
            ScanNumber(src, pos) == Good(n.neg, s, w, pos + |NumberText(n)|) && src[s..w] == n.whole
  {
    hide At, TailText, NumberText, ScanTail, SkipDigits;
    var s, w := NumberParts(src, pos, n);
    ScanTailComplete(src, w, n);
    ScanWholeComplete(src, s, n.whole);
  }

  lemma NumberComplete(src: string, p: P, n: Number)
    requires WfNumber(n) && At(src, p.pos, NumberText(n)) && EndsNumber(src, p.pos + |NumberText(n)|)
    ensures ParseNumber(src, p) == P(p.nodes + [NumberNode(n)], p.pos + |NumberText(n)|, true)
  {
    hide At, NumberText, ScanNumber;
    ScanNumberComplete(src, p.pos, n);
    SignedAccumulate(n);
  }

  lemma ScanFracSound(src: string, i: nat) returns (frac: string)
    requires i <= |src| && ScanFrac(src, i).ok
    ensures AllDigits(frac) && At(src, i, FracText(frac)) && ScanFrac(src, i).pos == i + |FracText(frac)|
  {
    hide At, SkipDigits;
    var f := ScanFrac(src, i).pos;
    if f == i {
      frac := "";
      AtEmpty(src, i);
    } else {
      frac := src[i + 1..f];
      AtSlice(src, i + 1, f);
      AtCons(src, i, '.', frac);
    }
  }

  /** What a scanned exponent consists of, up to its end e. */
  lemma ScanExpShape(src: string, i: nat, e: nat)
    requires i <= |src| && ScanExp(src, i) == Scan(e, true) && e != i
    ensures i + 1 < |src| && (src[i] == 'e' || src[i] == 'E')
    ensures var j := if src[i + 1] == '+' || src[i + 1] == '-' then i + 2 else i + 1;
            j < e <= |src| && AllDigits(src[j..e])
  {
  }

  lemma OneSlice(src: string, k: nat)
    requires k < |src|
    ensures src[k..k + 1] == [src[k]] && src[k..k] == ""
  {
  }

  lemma ExpAt(src: string, i: nat, j: nat, e: nat)
    requires i + 1 <= j <= i + 2 && j < e <= |src|
    ensures At(src, i, [src[i]] + (src[i + 1..j] + src[j..e]))
  {
    hide At;
    AtSlice(src, i + 1, j);
    AtSlice(src, j, e);
    AtConcat(src, i + 1, src[i + 1..j], src[j..e]);
    AtCons(src, i, src[i], src[i + 1..j] + src[j..e]);
  }

  lemma ScanExpSound(src: string, i: nat) returns (x: Exponent)
    requires i <= |src| && ScanExp(src, i).ok
    ensures WfExp(x) && At(src, i, ExpText(x)) && ScanExp(src, i).pos == i + |ExpText(x)|
  {
    hide At, ScanExp, AllDigits;
    var e := ScanExp(src, i).pos;
    if e == i {
      x := NoExp;
      AtEmpty(src, i);
    } else {
      ScanExpShape(src, i, e);
      var c := src[i + 1];
      if c == '+' || c == '-' {
        OneSlice(src, i + 1);
        x := Exp(src[i], [c], src[i + 2..e]);
        ExpAt(src, i, i + 2, e);
      } else {
        x := Exp(src[i], "", src[i + 1..e]);
        OneSlice(src, i + 1);
        ExpAt(src, i, i + 1, e);
      }
    }
  }

  lemma ScanNumberEnds(src: string, pos: nat)
    requires pos <= |src| && ScanNumber(src, pos).Good?
    ensures var Good(_, s, w, end) := ScanNumber(src, pos);
            ScanWhole(src, s) == Scan(w, true) && ScanTail(src, w) == Scan(end, true)
  {
    hide ScanWhole, ScanTail;
  }

  lemma WholeShape(src: string, s: nat, w: nat)
    requires s < |src| && ScanWhole(src, s) == Scan(w, true)
    ensures s < w <= |src| && AllDigits(src[s..w]) && (src[s..w][0] == '0' ==> w == s + 1)
  {
    hide SkipDigits;
  }

  lemma ScanNumberSound(src: string, pos: nat) returns (n: Number)
    requires pos <= |src| && ScanNumber(src, pos).Good?
    ensures WfNumber(n) && At(src, pos, NumberText(n))
    ensures var s := pos + |SignText(n.neg)|; var w := s + |n.whole|;
            ScanNumber(src, pos) == Good(n.neg, s, w, pos + |NumberText(n)|) && src[s..w] == n.whole
  {
    hide At, FracText, ExpText, SkipDigits, ScanWhole, ScanFrac, ScanExp, AllDigits, WfExp;
    var Good(neg, s, w, end) := ScanNumber(src, pos);
    ScanNumberEnds(src, pos);
    WholeShape(src, s, w);
    var frac := ScanFracSound(src, w);
    var x := ScanExpSound(src, w + |FracText(frac)|);
    n := Number(neg, src[s..w], frac, x);
    assert SignText(neg) == src[pos..s];
    AtSlice(src, pos, s);
    AtSlice(src, s, w);
    AtConcat(src, w, FracText(frac), ExpText(x));
    AtConcat(src, s, n.whole, TailText(n));
    AtConcat(src, pos, SignText(neg), n.whole + TailText(n));
  }

  lemma NumberSound(src: string, p: P) returns (n: Number)
    requires p.pos <= |src| && ParseNumber(src, p).valid
    ensures WfNumber(n) && At(src, p.pos, NumberText(n))
    ensures ParseNumber(src, p) == P(p.nodes + [NumberNode(n)], p.pos + |NumberText(n)|, true)
  {
    hide At, NumberText, ScanNumber;
    n := ScanNumberSound(src, p.pos);
    SignedAccumulate(n);
  }

  lemma ScanNumberLongest(src: string, pos: nat, s: nat, w: nat, n: Number)
    requires pos <= |src| && ScanNumber(src, pos).Good? && ScanNumber(src, pos).start == s
    requires WfNumber(n) && At(src, s, n.whole) && w == s + |n.whole| && At(src, w, TailText(n))
    ensures w + |TailText(n)| <= ScanNumber(src, pos).end
  {
    hide At, ScanWhole, ScanTail, TailText, WfNumber, AllDigits;
    WholeFacts(n);
    WholeLongest(src, s, n.whole);
    ScanNumberEnds(src, pos);
    if TailText(n) != "" { TailEnds(src, s, w, n); }
  }

  lemma WholeFacts(n: Number)
    requires WfNumber(n)
    ensures AllDigits(n.whole) && n.whole != "" && (n.whole[0] == '0' ==> |n.whole| == 1)
  {
  }

  /** Before a fraction or an exponent the integer part ends where it is printed to end. */
  lemma TailEnds(src: string, s: nat, w: nat, n: Number)
    requires s < |src| && WfNumber(n) && At(src, s, n.whole) && w == s + |n.whole| && At(src, w, TailText(n))
    requires TailText(n) != "" && w <= |src|
    ensures ScanWhole(src, s) == Scan(w, true)
    ensures ScanTail(src, w).ok ==> w + |TailText(n)| <= ScanTail(src, w).pos
  {
    hide At, ScanWhole, ScanTail;
    var f := TailParts(src, w, n);
    ScanWholeComplete(src, s, n.whole);
    if ScanTail(src, w).ok { TailLongest(src, w, f, n); }
  }

  /** Section 6, longest match: no number that starts here ends later than the parsed one. */
  lemma NumberLongest(src: string, p: P, n: Number)
    requires p.pos <= |src| && ParseNumber(src, p).valid
    requires WfNumber(n) && At(src, p.pos, NumberText(n))
    ensures p.pos + |NumberText(n)| <= ParseNumber(src, p).pos
  {
    hide At, NumberText, TailText;
    var s, w := NumberParts(src, p.pos, n);
    ScanNumberLongest(src, p.pos, s, w, n);
  }

  lemma TailLongest(src: string, i: nat, f: nat, n: Number)
    requires WfNumber(n) && At(src, i, FracText(n.frac)) && At(src, f, ExpText(n.exp))
    requires f == i + |FracText(n.frac)| && (n.exp.Exp? ==> f < |src| && src[f] == n.exp.mark)
    requires ScanTail(src, i).ok
    ensures f + |ExpText(n.exp)| <= ScanTail(src, i).pos
  {
    hide At, SkipDigits;
    if n.exp.Exp? {
      ScanFracComplete(src, i, n.frac);
      ExpParts(src, f, n.exp);
      DigitsLongest(src, f + 1 + |n.exp.sign|, n.exp.digits);
    } else if n.frac != "" {
      AtCons(src, i, '.', n.frac);
      DigitsLongest(src, i + 1, n.frac);
    }
  }

  lemma WholeLongest(src: string, i: nat, whole: string)
    requires At(src, i, whole) && AllDigits(whole) && whole != "" && (whole[0] == '0' ==> |whole| == 1)
    ensures i + |whole| <= ScanWhole(src, i).pos
  {
    hide At, SkipDigits;
    AtBounds(src, i, whole);
    DigitsLongest(src, i, whole);
  }

  // ---- values ----

  /** The preorder trace of a value; an object's keys are string nodes before their values. */
  function Trace(v: Value): seq<Node>
    requires WfValue(v)
  {
    match v
    case Null => [Node(1, 0)]
    case True => [Node(2, 1)]
    case False => [Node(2, 0)]
    case Num(n) => [NumberNode(n)]
    case Str(_) => [Node(4, 0)]
    case EmptyArr(_) => [Node(5, 0)]
    case EmptyObj(_) => [Node(6, 0)]
    case Arr(es) => [Node(5, 0)] + ElementsTrace(es)
    case Obj(ms) => [Node(6, 0)] + MembersTrace(ms)
  }

  function ElementsTrace(es: Elements): seq<Node>
    requires WfElements(es)
  {
    Trace(es.e.v) + (if es.Last? then [] else ElementsTrace(es.rest))
  }

  function MembersTrace(ms: Members): seq<Node>
    requires WfMembers(ms)
  {
    [Node(4, 0)] + (Trace(ms.e.v) + (if ms.LastM? then [] else MembersTrace(ms.more)))
  }

  lemma Assoc(a: seq<Node>, b: seq<Node>, c: seq<Node>)
    ensures a + b + c == a + (b + c)
  {
  }

  lemma MembersNodes(a: seq<Node>, ms: Members)
    requires WfMembers(ms)
    ensures a + MembersTrace(ms) ==
            if ms.LastM? then a + [Node(4, 0)] + Trace(ms.e.v)
            else a + [Node(4, 0)] + Trace(ms.e.v) + MembersTrace(ms.more)
  {
    hide Trace;
    var rest := if ms.LastM? then [] else MembersTrace(ms.more);
    Assoc(a, [Node(4, 0)], Trace(ms.e.v) + rest);
    Assoc(a + [Node(4, 0)], Trace(ms.e.v), rest);
  }

  /** The end of the text, or one of the bytes that may follow an element. */
  predicate Stops(src: string, e: nat) {
    e == |src| || (e < |src| && (src[e] == ',' || src[e] == ']' || src[e] == '}'))
  }

  /** The first byte of a value selects its rule; it is neither white space nor a closing bracket. */
  predicate Starts(c: char, v: Value) {
    match v
    case Null => c == 'n'
    case True => c == 't'
    case False => c == 'f'
    case Num(_) => c == '-' || IsDigit(c)
    case Str(_) => c == '"'
    case EmptyArr(_) => c == '['
    case Arr(_) => c == '['
    case EmptyObj(_) => c == '{'
    case Obj(_) => c == '{'
  }

  lemma TextStarts(src: string, i: nat, v: Value)
    requires WfValue(v) && At(src, i, Text(v))
    ensures i < |src| && Starts(src[i], v)
  {
    match v
    case Num(n) => var s, w := NumberParts(src, i, n);
    case _ =>
  }

  /** An array or object that holds something does not close at once. */
  lemma SkipToValue(src: string, i: nat, pre: string, v: Value)
    requires At(src, i, pre) && IsWs(pre) && WfValue(v) && At(src, i + |pre|, Text(v))
    ensures i + |pre| < |src| && SkipWs(src, i) == i + |pre| && Starts(src[i + |pre|], v)
  {
    TextStarts(src, i + |pre|, v);
    SkipWsOver(src, i, pre);
  }

  lemma ElementParts(src: string, i: nat, e: Element) returns (v: nat, q: nat)
    requires WfElement(e) && At(src, i, ElementText(e)) && Stops(src, i + |ElementText(e)|)
    ensures v == i + |e.pre| && q == v + |Text(e.v)| && q + |e.post| == i + |ElementText(e)| <= |src|
    ensures At(src, i, e.pre) && At(src, v, Text(e.v)) && EndsNumber(src, q)
    ensures SkipWs(src, q) == q + |e.post|
  {
    hide At;
    v := i + |e.pre|;
    q := v + |Text(e.v)|;
    AtConcat(src, i, e.pre, Text(e.v) + e.post);
    AtConcat(src, v, Text(e.v), e.post);
    AtBounds(src, q, e.post);
    SkipWsOver(src, q, e.post);
  }

  /** What the first byte of a value makes of it. */
  lemma Dispatch(src: string, p: P, depth: nat, i: nat)
    requires p.valid && depth <= MAX_DEPTH && p.pos <= |src| && SkipWs(src, p.pos) == i < |src|
    ensures var r, at := ParseValue(src, p, depth), P(p.nodes, i, true);
            && (src[i] == '{' ==> r == ParseObject(src, at, depth))
            && (src[i] == '[' ==> r == ParseArray(src, at, depth))
            && (src[i] == '"' ==> r == ParseString(src, at))
            && (src[i] == 't' ==> r == ParseLit(src, at, "true", Node(2, 1)))
            && (src[i] == 'f' ==> r == ParseLit(src, at, "false", Node(2, 0)))
            && (src[i] == 'n' ==> r == ParseLit(src, at, "null", Node(1, 0)))
            && (src[i] == '-' || IsDigit(src[i]) ==> r == ParseNumber(src, at))
  {
    hide ParseObject, ParseArray, ParseString, ParseLit, ParseNumber;
  }

  lemma ScalarComplete(src: string, p: P, depth: nat, i: nat, v: Value)
    requires p.valid && WfValue(v) && !v.Arr? && !v.Obj? && depth <= MAX_DEPTH
    requires p.pos <= |src| && SkipWs(src, p.pos) == i < |src|
    requires At(src, i, Text(v)) && Starts(src[i], v) && EndsNumber(src, i + |Text(v)|)
    ensures ParseValue(src, p, depth) == P(p.nodes + Trace(v), i + |Text(v)|, true)
  {
    hide ParseValue, At, SkipWs, ScanString, NumberText, NumberNode, ParseNumber, Closed, ParseElements, ParseMembers;
    Dispatch(src, p, depth, i);
    var at := P(p.nodes, i, true);
    if v.Num? {
      NumberComplete(src, at, v.n);
    } else if v.Str? {
      AtCons(src, i, '"', Closed(v.cs));
      ScanStringComplete(src, i + 1, v.cs);
    } else if v.EmptyArr? {
      ClosesAtOnce(src, i, '[', v.ws, ']');
    } else if v.EmptyObj? {
      ClosesAtOnce(src, i, '{', v.ws, '}');
    }
  }

  /** Whether the first byte from i on that is not white space is c. */
  predicate Finds(src: string, i: nat, c: char)
    requires i <= |src|
  {
    SkipWs(src, i) < |src| && src[SkipWs(src, i)] == c
  }

  /** An array or object that does not close at once is parsed by its loop. */
  lemma EnterLoop(src: string, p: P, depth: nat, i: nat)
    requires p.valid && depth <= MAX_DEPTH && p.pos <= |src| && SkipWs(src, p.pos) == i < |src|
    ensures src[i] == '[' && !Finds(src, i + 1, ']') ==>
            ParseValue(src, p, depth) == ParseElements(src, P(p.nodes + [Node(5, 0)], i + 1, true), depth)
    ensures src[i] == '{' && !Finds(src, i + 1, '}') ==>
            ParseValue(src, p, depth) == ParseMembers(src, P(p.nodes + [Node(6, 0)], i + 1, true), depth)
  {
    hide ParseValue, ParseElements, ParseMembers, SkipWs;
    Dispatch(src, p, depth, i);
  }

  /** Completeness: a printed value of bounded height is parsed to its end, and its trace is recorded. */
  lemma {:induction false} ValueComplete(src: string, p: P, depth: nat, pre: string, v: Value)
    requires p.valid && IsWs(pre) && At(src, p.pos, pre)
    requires WfValue(v) && depth + Height(v) <= MAX_DEPTH
    requires At(src, p.pos + |pre|, Text(v)) && EndsNumber(src, p.pos + |pre| + |Text(v)|)
    ensures p.pos <= |src|
    ensures ParseValue(src, p, depth) == P(p.nodes + Trace(v), p.pos + |pre| + |Text(v)|, true)
    decreases v, 1
  {
    hide ParseValue, ParseElements, ParseMembers, At, SkipWs, Finds, ElementsText, MembersText;
    var i := p.pos + |pre|;
    SkipToValue(src, p.pos, pre, v);
    if v.Arr? {
      AtCons(src, i, '[', ElementsText(v.es));
      ElementsComplete(src, P(p.nodes + [Node(5, 0)], i + 1, true), depth, v.es);
      EnterLoop(src, p, depth, i);
      Assoc(p.nodes, [Node(5, 0)], ElementsTrace(v.es));
    } else if v.Obj? {
      AtCons(src, i, '{', MembersText(v.ms));
      MembersComplete(src, P(p.nodes + [Node(6, 0)], i + 1, true), depth, v.ms);
      EnterLoop(src, p, depth, i);
      Assoc(p.nodes, [Node(6, 0)], MembersTrace(v.ms));
    } else {
      ScalarComplete(src, p, depth, i, v);
    }
  }

  lemma ClosesAtOnce(src: string, i: nat, open: char, ws: string, close: char)
    requires At(src, i, [open] + (ws + [close])) && IsWs(ws) && !IsSpace(close)
    ensures i + 1 <= |src| && src[i] == open
    ensures SkipWs(src, i + 1) == i + 1 + |ws| && Finds(src, i + 1, close)
  {
    hide At, SkipWs;
    AtCons(src, i, open, ws + [close]);
    AtConcat(src, i + 1, ws, [close]);
    AtBounds(src, i + 1 + |ws|, [close]);
    SkipWsOver(src, i + 1, ws);
  }

  /** One turn of the element loop. */
  lemma ElementStep(src: string, cur: P, depth: nat, v: P, q: nat)
    requires cur.valid && cur.pos <= |src| && v == ParseValue(src, cur, depth + 1) && v.valid
    requires q == SkipWs(src, v.pos)
    ensures var r := ParseElements(src, cur, depth);
            if q < |src| && src[q] == ',' then r == ParseElements(src, P(v.nodes, q + 1, true), depth)
            else if q < |src| && src[q] == ']' then r == P(v.nodes, q + 1, true)
            else !r.valid
  {
    hide ParseValue, SkipWs;
  }

  /** One turn of the member loop, behind the key. */
  lemma MemberStep(src: string, cur: P, depth: nat, k: P, v: P, q: nat)
    requires cur.valid && cur.pos <= |src| && k == ParseKey(src, cur) && k.valid
    requires v == ParseValue(src, k, depth + 1) && v.valid && q == SkipWs(src, v.pos)
    ensures var r := ParseMembers(src, cur, depth);
            if q < |src| && src[q] == ',' then r == ParseMembers(src, P(v.nodes, q + 1, true), depth)
            else if q < |src| && src[q] == '}' then r == P(v.nodes, q + 1, true)
            else !r.valid
  {
    hide ParseValue, ParseKey, SkipWs;
  }

  lemma ElementsParts(src: string, i: nat, es: Elements) returns (j: nat)
    requires At(src, i, ElementsText(es))
    ensures At(src, i, ElementText(es.e)) && j == i + |ElementText(es.e)| < |src|
    ensures src[j] == if es.Last? then ']' else ','
    ensures es.More? ==> At(src, j + 1, ElementsText(es.rest))
    ensures |ElementsText(es)| == j - i + 1 + (if es.Last? then 0 else |ElementsText(es.rest)|)
  {
    hide At, ElementText;
    j := i + |ElementText(es.e)|;
    var tail := if es.Last? then [']'] else [','] + ElementsText(es.rest);
    AtConcat(src, i, ElementText(es.e), tail);
    AtBounds(src, j, tail);
    if es.More? { AtCons(src, j, ',', ElementsText(es.rest)); }
  }

  lemma {:induction false} ElementsComplete(src: string, cur: P, depth: nat, es: Elements)
    requires cur.valid && WfElements(es) && depth + 1 + ElementsHeight(es) <= MAX_DEPTH
    requires At(src, cur.pos, ElementsText(es))
    ensures cur.pos <= |src|
    ensures ParseElements(src, cur, depth) == P(cur.nodes + ElementsTrace(es), cur.pos + |ElementsText(es)|, true)
    ensures !Finds(src, cur.pos, ']')
    decreases es, 0
  {
    hide ParseValue, ParseElements, At, SkipWs, Text, ElementText, ElementsText;
    var e := es.e;
    var j := ElementsParts(src, cur.pos, es);
    var v, q := ElementParts(src, cur.pos, e);
    SkipToValue(src, cur.pos, e.pre, e.v);
    ValueComplete(src, cur, depth + 1, e.pre, e.v);
    var nodes := cur.nodes + Trace(e.v);
    ElementStep(src, cur, depth, P(nodes, q, true), j);
    if es.More? {
      ElementsComplete(src, P(nodes, j + 1, true), depth, es.rest);
      assert nodes + ElementsTrace(es.rest) == cur.nodes + ElementsTrace(es);
    }
  }

  /** Where a member's key, its string, and the space before the colon lie. */
  lemma KeyParts(src: string, i: nat, pre: string, key: seq<StrChar>, mid: string) returns (ks: nat, k: nat)
    requires At(src, i, KeyText(pre, key, mid))
    ensures ks == i + |pre| < |src| && src[ks] == '"' && At(src, i, pre)
    ensures At(src, ks + 1, Closed(key)) && k == ks + 1 + |Closed(key)|
    ensures At(src, k, mid) && k + |mid| + 1 == i + |KeyText(pre, key, mid)| <= |src| && src[k + |mid|] == ':'
  {
    hide At, Closed;
    ks := i + |pre|;
    k := ks + 1 + |Closed(key)|;
    AtConcat(src, i, pre, ['"'] + (Closed(key) + (mid + [':'])));
    AtCons(src, ks, '"', Closed(key) + (mid + [':']));
    AtConcat(src, ks + 1, Closed(key), mid + [':']);
    AtConcat(src, k, mid, [':']);
    AtBounds(src, k + |mid|, [':']);
  }

  lemma KeyComplete(src: string, cur: P, pre: string, key: seq<StrChar>, mid: string)
    requires cur.valid && IsWs(pre) && WfChars(key) && IsWs(mid)
    requires At(src, cur.pos, KeyText(pre, key, mid))
    ensures cur.pos <= |src|
    ensures ParseKey(src, cur) == P(cur.nodes + [Node(4, 0)], cur.pos + |KeyText(pre, key, mid)|, true)
    ensures Finds(src, cur.pos, '"')
  {
    hide At, SkipWs, ScanString, Closed, KeyText;
    var ks, k := KeyParts(src, cur.pos, pre, key, mid);
    SkipWsOver(src, cur.pos, pre);
    ScanStringComplete(src, ks + 1, key);
    SkipWsOver(src, k, mid);
  }

  lemma MembersParts(src: string, i: nat, ms: Members) returns (k: nat, j: nat)
    requires At(src, i, MembersText(ms))
    ensures At(src, i, KeyText(ms.pre, ms.key, ms.mid)) && k == i + |KeyText(ms.pre, ms.key, ms.mid)|
    ensures At(src, k, ElementText(ms.e)) && j == k + |ElementText(ms.e)| < |src|
    ensures src[j] == if ms.LastM? then '}' else ','
    ensures ms.MoreM? ==> At(src, j + 1, MembersText(ms.more))
    ensures |MembersText(ms)| == j - i + 1 + (if ms.LastM? then 0 else |MembersText(ms.more)|)
  {
    hide KeyText, At, ElementText;
    var key := KeyText(ms.pre, ms.key, ms.mid);
    k := i + |key|;
    j := k + |ElementText(ms.e)|;
    var tail := if ms.LastM? then ['}'] else [','] + MembersText(ms.more);
    AtConcat(src, i, key, ElementText(ms.e) + tail);
    AtConcat(src, k, ElementText(ms.e), tail);
    AtBounds(src, j, tail);
    if ms.MoreM? { AtCons(src, j, ',', MembersText(ms.more)); }
  }

  lemma {:induction false} MembersComplete(src: string, cur: P, depth: nat, ms: Members)
    requires cur.valid && WfMembers(ms) && depth + 1 + MembersHeight(ms) <= MAX_DEPTH
    requires At(src, cur.pos, MembersText(ms))
    ensures cur.pos <= |src|
    ensures ParseMembers(src, cur, depth) == P(cur.nodes + MembersTrace(ms), cur.pos + |MembersText(ms)|, true)
    ensures !Finds(src, cur.pos, '}')
    decreases ms, 0
  {
    hide ParseValue, ParseKey, ParseMembers, At, SkipWs, Text, KeyText, ElementText, MembersText;
    var e := ms.e;
    var i, j := MembersParts(src, cur.pos, ms);
    KeyComplete(src, cur, ms.pre, ms.key, ms.mid);
    var v, q := ElementParts(src, i, e);
    var k := P(cur.nodes + [Node(4, 0)], i, true);
    ValueComplete(src, k, depth + 1, e.pre, e.v);
    var nodes := k.nodes + Trace(e.v);
    MemberStep(src, cur, depth, k, P(nodes, q, true), j);
    if ms.MoreM? {
      MembersComplete(src, P(nodes, j + 1, true), depth, ms.more);
    }
    MembersNodes(cur.nodes, ms);
  }

  /** Soundness: what the parser accepts is white space and a value of bounded height. */
  lemma {:induction false} ValueSound(src: string, p: P, depth: nat) returns (pre: string, v: Value)
    requires p.pos <= |src| && p.valid && ParseValue(src, p, depth).valid
    ensures IsWs(pre) && WfValue(v) && depth + Height(v) <= MAX_DEPTH
    ensures At(src, p.pos, pre) && At(src, p.pos + |pre|, Text(v))
    ensures ParseValue(src, p, depth) == P(p.nodes + Trace(v), p.pos + |pre| + |Text(v)|, true)
    decreases |src| - p.pos, 2
  {
    hide ParseValue, ParseElements, ParseMembers, At, SkipWs, Finds, ElementsText, MembersText;
    var i := SkipWs(src, p.pos);
    pre := src[p.pos..i];
    AtSlice(src, p.pos, i);
    DepthBound(src, p, depth);
    if src[i] == '[' && !Finds(src, i + 1, ']') {
      EnterLoop(src, p, depth, i);
      var es := ElementsSound(src, P(p.nodes + [Node(5, 0)], i + 1, true), depth);
      v := Arr(es);
      AtCons(src, i, '[', ElementsText(es));
      Assoc(p.nodes, [Node(5, 0)], ElementsTrace(es));
    } else if src[i] == '{' && !Finds(src, i + 1, '}') {
      EnterLoop(src, p, depth, i);
      var ms := MembersSound(src, P(p.nodes + [Node(6, 0)], i + 1, true), depth);
      v := Obj(ms);
      AtCons(src, i, '{', MembersText(ms));
      Assoc(p.nodes, [Node(6, 0)], MembersTrace(ms));
    } else {
      v := ScalarSound(src, p, depth, i);
    }
  }

  lemma DepthBound(src: string, p: P, depth: nat)
    requires p.pos <= |src| && p.valid && ParseValue(src, p, depth).valid
    ensures depth <= MAX_DEPTH && SkipWs(src, p.pos) < |src|
  {
  }

  lemma ScalarSound(src: string, p: P, depth: nat, i: nat) returns (v: Value)
    requires p.pos <= |src| && p.valid && ParseValue(src, p, depth).valid && SkipWs(src, p.pos) == i
    requires i < |src| && depth <= MAX_DEPTH
    requires src[i] == '[' || src[i] == '{' ==>
      Finds(src, i + 1, if src[i] == '[' then ']' else '}')
    ensures WfValue(v) && Height(v) == 0 && At(src, i, Text(v))
    ensures ParseValue(src, p, depth) == P(p.nodes + Trace(v), i + |Text(v)|, true)
  {
    hide ParseValue, At, SkipWs, ScanString, NumberText, NumberNode, ParseNumber, Closed, ParseElements, ParseMembers;
    Dispatch(src, p, depth, i);
    var at, c := P(p.nodes, i, true), src[i];
    if c == '[' || c == '{' {
      var close := if c == '[' then ']' else '}';
      var a := SkipWs(src, i + 1);
      var ws := src[i + 1..a];
      v := if c == '[' then EmptyArr(ws) else EmptyObj(ws);
      AtSlice(src, i + 1, a);
      AtOne(src, a);
      AtConcat(src, i + 1, ws, [close]);
      AtCons(src, i, c, ws + [close]);
    } else if c == '"' {
      var cs := ScanStringSound(src, i + 1);
      v := Str(cs);
      AtCons(src, i, '"', Closed(cs));
    } else if c == 't' {
      v := True;
    } else if c == 'f' {
      v := False;
    } else if c == 'n' {
      v := Null;
    } else {
      NotAValue(src, p, depth);
      var n := NumberSound(src, at);
      v := Num(n);
    }
  }

  lemma NotAValue(src: string, p: P, depth: nat)
    requires p.pos <= |src| && p.valid && ParseValue(src, p, depth).valid
    ensures var i := SkipWs(src, p.pos);
            i < |src| && (src[i] in "[{\"tfn" || src[i] == '-' || IsDigit(src[i]))
  {
  }

  /** An element and the bracket behind it, or the comma and the elements behind it. */
  lemma ElementsAt(src: string, i: nat, es: Elements, q: nat)
    requires At(src, i, ElementText(es.e)) && i + |ElementText(es.e)| == q < |src|
    requires src[q] == if es.Last? then ']' else ','
    requires es.More? ==> At(src, q + 1, ElementsText(es.rest))
    ensures At(src, i, ElementsText(es))
    ensures |ElementsText(es)| == q - i + 1 + (if es.Last? then 0 else |ElementsText(es.rest)|)
  {
    hide At, ElementText;
    AtOne(src, q);
    if es.More? { AtCons(src, q, ',', ElementsText(es.rest)); }
    AtConcat(src, i, ElementText(es.e), if es.Last? then [']'] else [','] + ElementsText(es.rest));
  }

  lemma ElementsValid(src: string, cur: P, depth: nat)
    requires cur.pos <= |src| && cur.valid && ParseElements(src, cur, depth).valid
    ensures ParseValue(src, cur, depth + 1).valid
  {
    hide ParseValue;
  }

  lemma MembersValid(src: string, cur: P, depth: nat)
    requires cur.pos <= |src| && cur.valid && ParseMembers(src, cur, depth).valid
    ensures ParseKey(src, cur).valid && ParseValue(src, ParseKey(src, cur), depth + 1).valid
  {
    hide ParseValue, ParseKey;
  }

  lemma {:induction false} ElementsSound(src: string, cur: P, depth: nat) returns (es: Elements)
    requires cur.pos <= |src| && cur.valid && ParseElements(src, cur, depth).valid
    ensures WfElements(es) && depth + 1 + ElementsHeight(es) <= MAX_DEPTH && At(src, cur.pos, ElementsText(es))
    ensures ParseElements(src, cur, depth) == P(cur.nodes + ElementsTrace(es), cur.pos + |ElementsText(es)|, true)
    decreases |src| - cur.pos, 3
  {
    hide ParseValue, ParseElements, SkipWs, At, Text, ElementText, ElementsText;
    ElementsValid(src, cur, depth);
    var pre, v := ValueSound(src, cur, depth + 1);
    var r := ParseValue(src, cur, depth + 1);
    var q := SkipWs(src, r.pos);
    ElementStep(src, cur, depth, r, q);
    var e := Element(pre, v, src[r.pos..q]);
    ElementAt(src, cur.pos, e, q);
    if src[q] == ']' {
      es := Last(e);
    } else {
      var rest := ElementsSound(src, P(r.nodes, q + 1, true), depth);
      es := More(e, rest);
      assert r.nodes + ElementsTrace(rest) == cur.nodes + ElementsTrace(es);
    }
    ElementsAt(src, cur.pos, es, q);
  }

  lemma ElementAt(src: string, i: nat, e: Element, q: nat)
    requires At(src, i, e.pre) && At(src, i + |e.pre|, Text(e.v))
    requires i + |e.pre| + |Text(e.v)| <= q <= |src| && e.post == src[i + |e.pre| + |Text(e.v)|..q]
    ensures At(src, i, ElementText(e)) && i + |ElementText(e)| == q
  {
    hide At;
    var v := i + |e.pre|;
    AtSlice(src, v + |Text(e.v)|, q);
    AtConcat(src, v, Text(e.v), e.post);
    AtConcat(src, i, e.pre, Text(e.v) + e.post);
  }

  lemma KeySound(src: string, cur: P) returns (pre: string, key: seq<StrChar>, mid: string)
    requires cur.pos <= |src| && cur.valid && ParseKey(src, cur).valid
    ensures IsWs(pre) && WfChars(key) && IsWs(mid) && At(src, cur.pos, KeyText(pre, key, mid))
    ensures ParseKey(src, cur) == P(cur.nodes + [Node(4, 0)], cur.pos + |KeyText(pre, key, mid)|, true)
  {
    hide At, SkipWs, Closed, ScanString;
    var ks := SkipWs(src, cur.pos);
    pre := src[cur.pos..ks];
    key := ScanStringSound(src, ks + 1);
    var k := ks + 1 + |Closed(key)|;
    var cs := SkipWs(src, k);
    mid := src[k..cs];
    AtSlice(src, cur.pos, ks);
    AtSlice(src, k, cs);
    AtOne(src, cs);
    AtConcat(src, k, mid, [':']);
    AtConcat(src, ks + 1, Closed(key), mid + [':']);
    AtCons(src, ks, '"', Closed(key) + (mid + [':']));
    AtConcat(src, cur.pos, pre, ['"'] + (Closed(key) + (mid + [':'])));
  }

  lemma MembersAt(src: string, i: nat, ms: Members, k: nat, q: nat)
    requires At(src, i, KeyText(ms.pre, ms.key, ms.mid)) && i + |KeyText(ms.pre, ms.key, ms.mid)| == k
    requires At(src, k, ElementText(ms.e)) && k + |ElementText(ms.e)| == q < |src|
    requires src[q] == if ms.LastM? then '}' else ','
    requires ms.MoreM? ==> At(src, q + 1, MembersText(ms.more))
    ensures At(src, i, MembersText(ms))
    ensures |MembersText(ms)| == q - i + 1 + (if ms.LastM? then 0 else |MembersText(ms.more)|)
  {
    hide At, ElementText, KeyText;
    AtOne(src, q);
    if ms.MoreM? { AtCons(src, q, ',', MembersText(ms.more)); }
    var tail := if ms.LastM? then ['}'] else [','] + MembersText(ms.more);
    AtConcat(src, k, ElementText(ms.e), tail);
    AtConcat(src, i, KeyText(ms.pre, ms.key, ms.mid), ElementText(ms.e) + tail);
  }

  lemma {:induction false} MembersSound(src: string, cur: P, depth: nat) returns (ms: Members)
    requires cur.pos <= |src| && cur.valid && ParseMembers(src, cur, depth).valid
    ensures WfMembers(ms) && depth + 1 + MembersHeight(ms) <= MAX_DEPTH && At(src, cur.pos, MembersText(ms))
    ensures ParseMembers(src, cur, depth) == P(cur.nodes + MembersTrace(ms), cur.pos + |MembersText(ms)|, true)
    decreases |src| - cur.pos, 3
  {
    hide ParseValue, ParseKey, ParseMembers, SkipWs, At, Text, KeyText, ElementText, MembersText;
    hide WfChars, Closed;
    MembersValid(src, cur, depth);
    var kpre, key, mid := KeySound(src, cur);
    var k := ParseKey(src, cur);
    var pre, v := ValueSound(src, k, depth + 1);
    var r := ParseValue(src, k, depth + 1);
    var q := SkipWs(src, r.pos);
    MemberStep(src, cur, depth, k, r, q);
    var e := Element(pre, v, src[r.pos..q]);
    ElementAt(src, k.pos, e, q);
    if src[q] == '}' {
      ms := LastM(kpre, key, mid, e);
    } else {
      var rest := MembersSound(src, P(r.nodes, q + 1, true), depth);
      ms := MoreM(kpre, key, mid, e, rest);
    }
    MembersNodes(cur.nodes, ms);
    MembersAt(src, cur.pos, ms, k.pos, q);
  }
}
