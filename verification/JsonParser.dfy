/** The recursive-descent parser of std/json_validate.fx as functions on its threaded state. */
module JsonParser {
  import opened Numeric
  import opened JsonGrammar

  datatype Node = Node(kind: int, ival: int)
  /** The parser state: the node trace so far, the position, and whether parsing still succeeds. */
  datatype P = P(nodes: seq<Node>, pos: nat, valid: bool)

  function Fail(p: P, at: nat): P { P(p.nodes, at, false) }

  function SkipWs(src: string, pos: nat): (r: nat)
    requires pos <= |src|
    ensures pos <= r <= |src|
    ensures forall k :: pos <= k < r ==> IsSpace(src[k])
    ensures r < |src| ==> !IsSpace(src[r])
    decreases |src| - pos
  {
    if pos < |src| && IsSpace(src[pos]) then SkipWs(src, pos + 1) else pos
  }

  function SkipDigits(src: string, pos: nat): (r: nat)
    requires pos <= |src|
    ensures pos <= r <= |src|
    ensures forall k :: pos <= k < r ==> IsDigit(src[k])
    ensures r < |src| ==> !IsDigit(src[r])
    decreases |src| - pos
  {
    if pos < |src| && IsDigit(src[pos]) then SkipDigits(src, pos + 1) else pos
  }

  /** Whether src holds w from i on. */
  predicate At(src: string, i: int, w: string)
    decreases |w|
  {
    if w == "" then 0 <= i <= |src| else 0 <= i < |src| && src[i] == w[0] && At(src, i + 1, w[1..])
  }

  function ParseLit(src: string, p: P, word: string, node: Node): P
    requires p.pos <= |src|
  {
    if At(src, p.pos, word) then P(p.nodes + [node], p.pos + |word|, true) else Fail(p, p.pos)
  }

  /** Where scanning a string body stopped, and whether at its closing quote. */
  datatype Scan = Scan(pos: nat, ok: bool)

  function ScanString(src: string, i: nat): (r: Scan)
    requires i <= |src|
    ensures i <= r.pos <= |src|
    ensures r.ok ==> i < r.pos
    decreases |src| - i
  {
    if i >= |src| then Scan(i, false)
    else if src[i] == '"' then Scan(i + 1, true)
    else if src[i] == '\\' then
      if i + 1 >= |src| then Scan(i + 1, false)
      else if src[i + 1] == 'u' then
        if i + 5 >= |src| then Scan(i + 1, false)
        else if IsHex(src[i + 2]) && IsHex(src[i + 3]) && IsHex(src[i + 4]) && IsHex(src[i + 5]) then
          ScanString(src, i + 6)
        else Scan(i + 1, false)
      else if IsEscape(src[i + 1]) then ScanString(src, i + 2)
      else Scan(i + 1, false)
    else if src[i] < ' ' then Scan(i, false)
    else ScanString(src, i + 1)
  }

  function ParseString(src: string, p: P): (r: P)
    requires p.pos < |src|
    ensures p.pos < r.pos <= |src|
  {
    var s := ScanString(src, p.pos + 1);
    if s.ok then P(p.nodes + [Node(4, 0)], s.pos, true) else Fail(p, s.pos)
  }

  /** The end of the integer part starting at i, or that there is none. */
  function ScanWhole(src: string, i: nat): (r: Scan)
    requires i < |src|
    ensures i <= r.pos <= |src| && (r.ok ==> i < r.pos && AllDigits(src[i..r.pos]))
  {
    if src[i] == '0' then Scan(i + 1, true)
    else if !IsDigit(src[i]) then Scan(i, false)
    else Scan(SkipDigits(src, i), true)
  }

  /** One or more digits, starting at i. */
  function ScanDigits(src: string, i: nat): (r: Scan)
    requires i <= |src|
    ensures i <= r.pos <= |src|
  {
    var j := SkipDigits(src, i);
    Scan(j, j != i)
  }

  function ScanFrac(src: string, i: nat): (r: Scan)
    requires i <= |src|
    ensures i <= r.pos <= |src|
  {
    if i < |src| && src[i] == '.' then ScanDigits(src, i + 1) else Scan(i, true)
  }

  function ScanExp(src: string, i: nat): (r: Scan)
    requires i <= |src|
    ensures i <= r.pos <= |src|
  {
    if i < |src| && (src[i] == 'e' || src[i] == 'E') then
      if i + 1 < |src| && (src[i + 1] == '+' || src[i + 1] == '-') then ScanDigits(src, i + 2)
      else ScanDigits(src, i + 1)
    else Scan(i, true)
  }

  /** The optional fraction and the optional exponent. */
  function ScanTail(src: string, i: nat): (r: Scan)
    requires i <= |src|
    ensures i <= r.pos <= |src|
  {
    var f := ScanFrac(src, i);
    if f.ok then ScanExp(src, f.pos) else f
  }

  function Signed(neg: bool, acc: int): int { I32(if neg then -acc else acc) }

  /** Where a number's integer part starts and ends and where the number ends. */
  datatype NumberScan = Bad(at: nat) | Good(neg: bool, start: nat, whole: nat, end: nat)

  function ScanNumber(src: string, pos: nat): (r: NumberScan)
    requires pos <= |src|
    ensures r.Bad? ==> pos <= r.at <= |src|
    ensures r.Good? ==> pos <= r.start < r.whole <= r.end <= |src| && AllDigits(src[r.start..r.whole])
  {
    var neg := pos < |src| && src[pos] == '-';
    var i := if neg then pos + 1 else pos;
    if i >= |src| then Bad(i)
    else
      var w := ScanWhole(src, i);
      if !w.ok then Bad(w.pos)
      else
        var t := ScanTail(src, w.pos);
        if t.ok then Good(neg, i, w.pos, t.pos) else Bad(t.pos)
  }

  function ParseNumber(src: string, p: P): (r: P)
    requires p.pos <= |src|
    ensures p.pos <= r.pos <= |src|
    ensures r.valid ==> p.pos < r.pos
  {
    match ScanNumber(src, p.pos)
    case Bad(at) => Fail(p, at)
    case Good(neg, i, w, end) => P(p.nodes + [Node(3, Signed(neg, Accumulate(src[i..w])))], end, true)
  }

  /** What every parsing step keeps: it stays in the text, moves on, and only appends nodes,
      never more than the bytes it consumed. */
  predicate Advances(src: string, p: P, r: P) {
    && p.pos <= r.pos <= |src|
    && (r.valid ==> p.pos < r.pos)
    && p.nodes <= r.nodes
    && |r.nodes| - |p.nodes| <= r.pos - p.pos
  }

  function ParseValue(src: string, p: P, depth: nat): (r: P)
    requires p.pos <= |src|
    ensures p.valid ==> Advances(src, p, r)
    ensures !p.valid ==> r == p
    decreases |src| - p.pos, 2
  {
    if !p.valid then p
    else if depth > MAX_DEPTH then Fail(p, p.pos)
    else
      var pos := SkipWs(src, p.pos);
      if pos >= |src| then Fail(p, pos)
      else
        var at := P(p.nodes, pos, true);
        var c := src[pos];
        if c == '{' then ParseObject(src, at, depth)
        else if c == '[' then ParseArray(src, at, depth)
        else if c == '"' then ParseString(src, at)
        else if c == 't' then ParseLit(src, at, "true", Node(2, 1))
        else if c == 'f' then ParseLit(src, at, "false", Node(2, 0))
        else if c == 'n' then ParseLit(src, at, "null", Node(1, 0))
        else if c == '-' || IsDigit(c) then ParseNumber(src, at)
        else Fail(at, pos)
  }

  function ParseArray(src: string, p: P, depth: nat): (r: P)
    requires p.pos < |src| && p.valid
    ensures Advances(src, p, r)
    decreases |src| - p.pos, 1
  {
    var cur := P(p.nodes + [Node(5, 0)], p.pos + 1, true);
    var after := SkipWs(src, cur.pos);
    if after < |src| && src[after] == ']' then P(cur.nodes, after + 1, true)
    else ParseElements(src, cur, depth)
  }

  /** The element loop, from behind '[' or a comma on. */
  function ParseElements(src: string, cur: P, depth: nat): (r: P)
    requires cur.pos <= |src| && cur.valid
    ensures Advances(src, cur, r)
    decreases |src| - cur.pos, 3
  {
    var v := ParseValue(src, cur, depth + 1);
    if !v.valid then v
    else
      var q := SkipWs(src, v.pos);
      if q >= |src| then Fail(v, q)
      else if src[q] == ',' then ParseElements(src, P(v.nodes, q + 1, true), depth)
      else if src[q] == ']' then P(v.nodes, q + 1, true)
      else Fail(v, q)
  }

  function ParseObject(src: string, p: P, depth: nat): (r: P)
    requires p.pos < |src| && p.valid
    ensures Advances(src, p, r)
    decreases |src| - p.pos, 1
  {
    var cur := P(p.nodes + [Node(6, 0)], p.pos + 1, true);
    var after := SkipWs(src, cur.pos);
    if after < |src| && src[after] == '}' then P(cur.nodes, after + 1, true)
    else ParseMembers(src, cur, depth)
  }

  /** A member's key and the colon behind it. */
  function ParseKey(src: string, cur: P): (r: P)
    requires cur.pos <= |src| && cur.valid
    ensures Advances(src, cur, r)
  {
    var ks := SkipWs(src, cur.pos);
    if ks >= |src| || src[ks] != '"' then Fail(cur, ks)
    else
      var k := ParseString(src, P(cur.nodes, ks, true));
      if !k.valid then k
      else
        var cs := SkipWs(src, k.pos);
        if cs >= |src| || src[cs] != ':' then Fail(k, cs)
        else P(k.nodes, cs + 1, true)
  }

  /** The member loop, from behind '{' or a comma on. */
  function ParseMembers(src: string, cur: P, depth: nat): (r: P)
    requires cur.pos <= |src| && cur.valid
    ensures Advances(src, cur, r)
    decreases |src| - cur.pos, 3
  {
    var k := ParseKey(src, cur);
    if !k.valid then k
    else
      var v := ParseValue(src, k, depth + 1);
      if !v.valid then v
      else
        var q := SkipWs(src, v.pos);
        if q >= |src| then Fail(v, q)
        else if src[q] == ',' then ParseMembers(src, P(v.nodes, q + 1, true), depth)
        else if src[q] == '}' then P(v.nodes, q + 1, true)
        else Fail(v, q)
  }

  predicate Validate(src: string) {
    var p := ParseValue(src, P([], 0, true), 0);
    p.valid && SkipWs(src, p.pos) == |src|
  }
}
