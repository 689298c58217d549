/** What the JSON validator promises, for every text. */
module JsonTheorems {
  import opened Numeric
  import opened JsonGrammar
  import opened JsonParser
  import opened JsonProofs

  /** The parser undoes the printer: it stops where the value's text ends, and its node vector is the
      preorder trace of the tree. */
  lemma ParseUndoesPrint(d: Element)
    requires WfElement(d) && Height(d.v) <= MAX_DEPTH
    ensures ParseValue(ElementText(d), P([], 0, true), 0) == P(Trace(d.v), |d.pre| + |Text(d.v)|, true)
    ensures Validate(ElementText(d))
  {
    hide ParseValue, SkipWs, At, Text, ElementText;
    var src := ElementText(d);
    AtWhole(src);
    var v, q := ElementParts(src, 0, d);
    ValueComplete(src, P([], 0, true), 0, d.pre, d.v);
    assert [] + Trace(d.v) == Trace(d.v);
  }

  /** The validator accepts exactly the JSON texts that nest at most MAX_DEPTH deep. */
  lemma ValidateIffJsonText(src: string)
    ensures Validate(src) <==> IsJsonText(src)
  {
    hide ParseValue, At, Text, Trace;
    if Validate(src) {
      var p := ParseValue(src, P([], 0, true), 0);
      var pre, v := ValueSound(src, P([], 0, true), 0);
      var d := Element(pre, v, src[p.pos..]);
      ElementAt(src, 0, d, |src|);
      AtBounds(src, 0, ElementText(d));
      assert Derives(d, src);
    }
    if IsJsonText(src) {
      var d :| Derives(d, src) && Height(d.v) <= MAX_DEPTH;
      ParseUndoesPrint(d);
    }
  }

  lemma AtWhole(src: string)
    ensures At(src, 0, src)
  {
    AtSlice(src, 0, |src|);
    assert src[0..|src|] == src;
  }

  lemma AtFits(src: string, i: int, w: string)
    requires At(src, i, w)
    ensures i + |w| <= |src|
  {
    AtBounds(src, i, w);
  }

  /** A text is printed from at most one trace, so the node vector is a function of the text alone. */
  lemma TraceDeterminedByText(d1: Element, d2: Element)
    requires WfElement(d1) && Height(d1.v) <= MAX_DEPTH && WfElement(d2) && Height(d2.v) <= MAX_DEPTH
    requires ElementText(d1) == ElementText(d2)
    ensures Trace(d1.v) == Trace(d2.v)
  {
    ParseUndoesPrint(d1);
    ParseUndoesPrint(d2);
  }

  // ---- the depth limit is exact ----

  /** A value that nests deeper than the limit allows is refused. */
  lemma {:induction false} TooDeep(src: string, p: P, depth: nat, pre: string, v: Value)
    requires p.valid && IsWs(pre) && At(src, p.pos, pre)
    requires WfValue(v) && depth + Height(v) > MAX_DEPTH && At(src, p.pos + |pre|, Text(v))
    ensures p.pos <= |src| && !ParseValue(src, p, depth).valid
    decreases v, 1
  {
    hide ParseElements, ParseMembers, ParseString, ParseNumber, ParseLit, At, SkipWs, Finds, ElementsText, MembersText;
    var i := p.pos + |pre|;
    SkipToValue(src, p.pos, pre, v);
    if depth <= MAX_DEPTH {
      if v.Arr? {
        AtCons(src, i, '[', ElementsText(v.es));
        ElementsTooDeep(src, P(p.nodes + [Node(5, 0)], i + 1, true), depth, v.es);
      } else {
        AtCons(src, i, '{', MembersText(v.ms));
        MembersTooDeep(src, P(p.nodes + [Node(6, 0)], i + 1, true), depth, v.ms);
      }
      EnterLoop(src, p, depth, i);
    }
  }

  lemma {:induction false} ElementsTooDeep(src: string, cur: P, depth: nat, es: Elements)
    requires cur.valid && WfElements(es) && depth + 1 + ElementsHeight(es) > MAX_DEPTH
    requires At(src, cur.pos, ElementsText(es))
    ensures cur.pos <= |src| && !ParseElements(src, cur, depth).valid
    ensures !Finds(src, cur.pos, ']')
    decreases es, 0
  {
    hide ParseValue, At, SkipWs, Text, ElementText, ElementsText;
    var e := es.e;
    var j := ElementsParts(src, cur.pos, es);
    var v, q := ElementParts(src, cur.pos, e);
    SkipToValue(src, cur.pos, e.pre, e.v);
    if depth + 1 + Height(e.v) > MAX_DEPTH {
      TooDeep(src, cur, depth + 1, e.pre, e.v);
    } else {
      ValueComplete(src, cur, depth + 1, e.pre, e.v);
      var nodes := cur.nodes + Trace(e.v);
      ElementStep(src, cur, depth, P(nodes, q, true), j);
      ElementsTooDeep(src, P(nodes, j + 1, true), depth, es.rest);
    }
  }

  lemma {:induction false} MembersTooDeep(src: string, cur: P, depth: nat, ms: Members)
    requires cur.valid && WfMembers(ms) && depth + 1 + MembersHeight(ms) > MAX_DEPTH
    requires At(src, cur.pos, MembersText(ms))
    ensures cur.pos <= |src| && !ParseMembers(src, cur, depth).valid
    ensures !Finds(src, cur.pos, '}')
    decreases ms, 0
  {
    hide ParseValue, ParseKey, At, SkipWs, Text, KeyText, ElementText, MembersText;
    var e := ms.e;
    var i, j := MembersParts(src, cur.pos, ms);
    KeyComplete(src, cur, ms.pre, ms.key, ms.mid);
    var v, q := ElementParts(src, i, e);
    var k := P(cur.nodes + [Node(4, 0)], i, true);
    if depth + 1 + Height(e.v) > MAX_DEPTH {
      TooDeep(src, k, depth + 1, e.pre, e.v);
    } else {
      ValueComplete(src, k, depth + 1, e.pre, e.v);
      var nodes := k.nodes + Trace(e.v);
      MemberStep(src, cur, depth, k, P(nodes, q, true), j);
      MembersTooDeep(src, P(nodes, j + 1, true), depth, ms.more);
    }
  }

  /** A printed tree is accepted if and only if it nests at most MAX_DEPTH deep. */
  lemma AcceptedIffShallow(d: Element)
    requires WfElement(d)
    ensures Validate(ElementText(d)) <==> Height(d.v) <= 400
  {
    hide ParseValue, SkipWs, At, Text, ElementText;
    if Height(d.v) <= MAX_DEPTH {
      ParseUndoesPrint(d);
    } else {
      var src := ElementText(d);
      AtWhole(src);
      var v, q := ElementParts(src, 0, d);
      TooDeep(src, P([], 0, true), 0, d.pre, d.v);
    }
  }

  /** Where parsing a number succeeds, the text there is a number, no longer number starts there, and
      the node carries the signed value of its integer part, exactly if and only if that fits in an i32. */
  lemma NumberNodeValue(src: string, p: P) returns (n: Number)
    requires p.pos <= |src| && ParseNumber(src, p).valid
    ensures WfNumber(n) && At(src, p.pos, NumberText(n))
    ensures ParseNumber(src, p) == P(p.nodes + [Node(3, I32(WholeValue(n)))], p.pos + |NumberText(n)|, true)
    ensures I32(WholeValue(n)) == WholeValue(n) <==> -MAX32 - 1 <= WholeValue(n) <= MAX32
    ensures n.neg ==> WholeValue(n) + Decimal(n.whole) == 0
    ensures !n.neg ==> WholeValue(n) == Decimal(n.whole)
    ensures forall m :: WfNumber(m) && At(src, p.pos, NumberText(m)) ==> |NumberText(m)| <= |NumberText(n)|
  {
    hide ParseNumber, At, NumberText;
    n := NumberSound(src, p);
    forall m | WfNumber(m) && At(src, p.pos, NumberText(m))
      ensures |NumberText(m)| <= |NumberText(n)|
    {
      NumberLongest(src, p, m);
    }
  }

  /** The node of each scalar and of each empty container. */
  lemma NodesOfScalars()
    ensures ParseValue("null", P([], 0, true), 0) == P([Node(1, 0)], 4, true)
    ensures ParseValue("false", P([], 0, true), 0) == P([Node(2, 0)], 5, true)
    ensures ParseValue("true", P([], 0, true), 0) == P([Node(2, 1)], 4, true)
  {
    hide ParseValue;
    NodesOf(Null, "null");
    NodesOf(False, "false");
    NodesOf(True, "true");
  }

  lemma NodesOfEmpties()
    ensures ParseValue("\"\"", P([], 0, true), 0) == P([Node(4, 0)], 2, true)
    ensures ParseValue("[]", P([], 0, true), 0) == P([Node(5, 0)], 2, true)
    ensures ParseValue("{}", P([], 0, true), 0) == P([Node(6, 0)], 2, true)
  {
    hide ParseValue;
    NodesOf(Str([]), "\"\"");
    NodesOf(EmptyArr(""), "[]");
    NodesOf(EmptyObj(""), "{}");
  }

  /** An object's node comes before its key's, and the key's before the value's. */
  lemma NodesOfNested()
    ensures ParseValue("{\"\":[true]}", P([], 0, true), 0) ==
      P([Node(6, 0), Node(4, 0), Node(5, 0), Node(2, 1)], 11, true)
  {
    hide ParseValue;
    var list := Arr(Last(Element("", True, "")));
    assert Text(list) == "[true]" && Trace(list) == [Node(5, 0), Node(2, 1)];
    NodesOf(Obj(LastM("", [], "", Element("", list, ""))), "{\"\":[true]}");
  }

  lemma NodesOf(v: Value, text: string)
    requires WfValue(v) && Text(v) == text && Height(v) <= MAX_DEPTH
    ensures ParseValue(text, P([], 0, true), 0) == P(Trace(v), |text|, true)
  {
    hide ParseValue, Text;
    var d := Element("", v, "");
    assert ElementText(d) == text;
    ParseUndoesPrint(d);
  }
}
