/** The loops of std/json_validate.fx, each computing the parser function of the same name. */
module JsonValidate {
  import opened Numeric
  import opened JsonGrammar
  import opened S = JsonParser
  import Theorems = JsonTheorems

  method SkipWs(src: string, pos: nat) returns (i: nat)
    requires pos <= |src|
    ensures i == S.SkipWs(src, pos)
  {
    i := pos;
    while i < |src|
      invariant i <= |src| && S.SkipWs(src, pos) == S.SkipWs(src, i)
    {
      if !IsSpace(src[i]) { break; }
      i := i + 1;
    }
  }

  method ParseLit(src: string, p: P, word: string, node: Node) returns (r: P)
    requires p.pos <= |src|
    ensures r == S.ParseLit(src, p, word, node)
  {
    var wl := |word|;
    if p.pos + wl > |src| {
      if At(src, p.pos, word) { Theorems.AtFits(src, p.pos, word); }
      return Fail(p, p.pos);
    }
    var i := 0;
    while i < wl
      invariant i <= wl && (At(src, p.pos, word) <==> At(src, p.pos + i, word[i..]))
    {
      if src[p.pos + i] != word[i] { return Fail(p, p.pos); }
      assert word[i..][1..] == word[i + 1..];
      i := i + 1;
    }
    return P(p.nodes + [node], p.pos + wl, true);
  }

  method ParseString(src: string, p: P) returns (r: P)
    requires p.pos < |src|
    ensures r == S.ParseString(src, p)
  {
    var n := |src|;
    var i := p.pos + 1;
    var done, bad := false, false;
    while i < n
      invariant i <= n && !done && !bad
      invariant S.ScanString(src, p.pos + 1) == S.ScanString(src, i)
      decreases n - i
    {
      var c := src[i];
      if c == '"' {
        done := true;
        i := i + 1;
        break;
      }
      if c == '\\' {
        i := i + 1;
        if i >= n {
          bad := true;
          break;
        }
        var e := src[i];
        var okesc := IsEscape(e);
        if e == 'u' {
          if i + 4 >= n {
            bad := true;
            break;
          }
          var h := 1;
          while h <= 4
            invariant 1 <= h <= 5
            invariant bad <==> exists k :: i < k < i + h && !IsHex(src[k])
          {
            if !IsHex(src[i + h]) { bad := true; }
            h := h + 1;
          }
          assert bad <==> !IsHex(src[i + 1]) || !IsHex(src[i + 2]) || !IsHex(src[i + 3]) || !IsHex(src[i + 4]);
          if bad { break; }
          i := i + 4;
          okesc := true;
        }
        if !okesc {
          bad := true;
          break;
        }
        i := i + 1;
      } else {
        if c < ' ' {
          bad := true;
          break;
        }
        i := i + 1;
      }
    }
    if !done { bad := true; }
    if bad { return Fail(p, i); }
    return P(p.nodes + [Node(4, 0)], i, true);
  }

  /** The digit loops of the fraction and of the exponent, with their digit counter. */
  method SkipDigits(src: string, pos: nat) returns (i: nat, count: nat)
    requires pos <= |src|
    ensures i == S.SkipDigits(src, pos) && count == i - pos
  {
    i, count := pos, 0;
    while i < |src|
      invariant pos <= i <= |src| && count == i - pos && S.SkipDigits(src, pos) == S.SkipDigits(src, i)
    {
      if !IsDigit(src[i]) { break; }
      count := count + 1;
      i := i + 1;
    }
  }

  /** The integer part's digit loop, with its wrapping accumulator. */
  method AccumulateDigits(src: string, pos: nat) returns (i: nat, acc: int)
    requires pos <= |src|
    ensures i == S.SkipDigits(src, pos) && acc == Accumulate(src[pos..i])
  {
    i, acc := pos, 0;
    while i < |src|
      invariant pos <= i <= |src| && S.SkipDigits(src, pos) == S.SkipDigits(src, i)
      invariant AllDigits(src[pos..i]) && acc == Accumulate(src[pos..i])
    {
      var d := src[i];
      if !IsDigit(d) { break; }
      AccumulateSnoc(src, pos, i);
      acc := I32(acc * 10 + DigitValue(d));
      i := i + 1;
    }
  }

  /** The integer part, from behind the sign: where it stops, and its value. */
  method ParseWhole(src: string, start: nat) returns (w: Scan, acc: int)
    requires start < |src|
    ensures w == S.ScanWhole(src, start)
    ensures w.ok ==> acc == Accumulate(src[start..w.pos])
  {
    acc := 0;
    if src[start] == '0' {
      assert src[start..start + 1] == ['0'];
      return Scan(start + 1, true), 0;
    }
    if !IsDigit(src[start]) { return Scan(start, false), 0; }
    var i;
    i, acc := AccumulateDigits(src, start);
    return Scan(i, true), acc;
  }

  /** The optional fraction and exponent; stops at the first byte that is wrong or not theirs. */
  method ParseTail(src: string, start: nat) returns (t: Scan)
    requires start <= |src|
    ensures t == S.ScanTail(src, start)
  {
    var i := start;
    if i < |src| && src[i] == '.' {
      var fd;
      i, fd := SkipDigits(src, i + 1);
      if fd == 0 { return Scan(i, false); }
    }
    if i < |src| && (src[i] == 'e' || src[i] == 'E') {
      i := i + 1;
      if i < |src| && (src[i] == '+' || src[i] == '-') { i := i + 1; }
      var xd;
      i, xd := SkipDigits(src, i);
      if xd == 0 { return Scan(i, false); }
    }
    return Scan(i, true);
  }

  method ParseNumber(src: string, p: P) returns (r: P)
    requires p.pos <= |src|
    ensures r == S.ParseNumber(src, p)
  {
    hide S.ScanWhole, S.ScanTail, Accumulate, S.Signed;
    var i := p.pos;
    var neg := false;
    if i < |src| && src[i] == '-' {
      neg := true;
      i := i + 1;
    }
    if i >= |src| { return Fail(p, i); }
    var w, acc := ParseWhole(src, i);
    if !w.ok { return Fail(p, w.pos); }
    var t := ParseTail(src, w.pos);
    if !t.ok { return Fail(p, t.pos); }
    return P(p.nodes + [Node(3, Signed(neg, acc))], t.pos, true);
  }

  method ParseArray(src: string, p: P, depth: nat) returns (r: P)
    requires p.pos < |src| && p.valid
    ensures r == S.ParseArray(src, p, depth)
    decreases |src| - p.pos, 1
  {
    hide S.ParseValue, S.SkipWs, S.ParseString;
    var cur := P(p.nodes + [Node(5, 0)], p.pos + 1, true);
    var after := SkipWs(src, cur.pos);
    if after < |src| && src[after] == ']' { return P(cur.nodes, after + 1, true); }
    while true
      invariant cur.valid && p.pos < cur.pos <= |src|
      invariant S.ParseArray(src, p, depth) == S.ParseElements(src, cur, depth)
      decreases |src| - cur.pos
    {
      var v := ParseValue(src, cur, depth + 1);
      if !v.valid { return v; }
      var q := SkipWs(src, v.pos);
      if q >= |src| { return Fail(v, q); }
      var sep := src[q];
      if sep == ',' {
        cur := P(v.nodes, q + 1, true);
      } else if sep == ']' {
        return P(v.nodes, q + 1, true);
      } else {
        return Fail(v, q);
      }
    }
  }

  /** A member's key and the colon behind it. */
  method ParseKey(src: string, cur: P) returns (r: P)
    requires cur.pos <= |src| && cur.valid
    ensures r == S.ParseKey(src, cur)
  {
    hide S.SkipWs, S.ParseString;
    var ks := SkipWs(src, cur.pos);
    if ks >= |src| || src[ks] != '"' { return Fail(cur, ks); }
    var k := ParseString(src, P(cur.nodes, ks, true));
    if !k.valid { return k; }
    var cs := SkipWs(src, k.pos);
    if cs >= |src| || src[cs] != ':' { return Fail(k, cs); }
    return P(k.nodes, cs + 1, true);
  }

  method ParseObject(src: string, p: P, depth: nat) returns (r: P)
    requires p.pos < |src| && p.valid
    ensures r == S.ParseObject(src, p, depth)
    decreases |src| - p.pos, 1
  {
    hide S.ParseValue, S.SkipWs, S.ParseKey;
    var cur := P(p.nodes + [Node(6, 0)], p.pos + 1, true);
    var after := SkipWs(src, cur.pos);
    if after < |src| && src[after] == '}' { return P(cur.nodes, after + 1, true); }
    while true
      invariant cur.valid && p.pos < cur.pos <= |src|
      invariant S.ParseObject(src, p, depth) == S.ParseMembers(src, cur, depth)
      decreases |src| - cur.pos
    {
      var k := ParseKey(src, cur);
      if !k.valid { return k; }
      var v := ParseValue(src, k, depth + 1);
      if !v.valid { return v; }
      var q := SkipWs(src, v.pos);
      if q >= |src| { return Fail(v, q); }
      var sep := src[q];
      if sep == ',' {
        cur := P(v.nodes, q + 1, true);
      } else if sep == '}' {
        return P(v.nodes, q + 1, true);
      } else {
        return Fail(v, q);
      }
    }
  }

  method ParseValue(src: string, p: P, depth: nat) returns (r: P)
    requires p.pos <= |src|
    ensures r == S.ParseValue(src, p, depth)
    decreases |src| - p.pos, 2
  {
    if !p.valid { return p; }
    if depth > MAX_DEPTH { return Fail(p, p.pos); }
    var pos := SkipWs(src, p.pos);
    if pos >= |src| { return Fail(p, pos); }
    var c := src[pos];
    var at := P(p.nodes, pos, true);
    if c == '{' {
      r := ParseObject(src, at, depth);
    } else if c == '[' {
      r := ParseArray(src, at, depth);
    } else if c == '"' {
      r := ParseString(src, at);
    } else if c == 't' {
      r := ParseLit(src, at, "true", Node(2, 1));
    } else if c == 'f' {
      r := ParseLit(src, at, "false", Node(2, 0));
    } else if c == 'n' {
      r := ParseLit(src, at, "null", Node(1, 0));
    } else if c == '-' || IsDigit(c) {
      r := ParseNumber(src, at);
    } else {
      r := Fail(at, pos);
    }
  }

  /** 1 exactly for the JSON texts within the nesting limit. */
  method Validate(src: string) returns (ok: int)
    ensures ok == 1 || ok == 0
    ensures ok == 1 <==> IsJsonText(src)
  {
    Theorems.ValidateIffJsonText(src);
    var p := ParseValue(src, P([], 0, true), 0);
    if !p.valid { return 0; }
    var end := SkipWs(src, p.pos);
    if end != |src| { return 0; }
    return 1;
  }
}
