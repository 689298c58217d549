/** The bump arena's padding on machine words and on numbers agree. */
module ArenaWords {
  import opened Arena

  function Half(x: bv64): bv64 { x >> 1 }

  function LowBit(x: bv64): (r: nat)
    ensures r <= 1
  {
    if x & 1 == 0 then 0 else 1
  }

  lemma HalfIsLess(x: bv64)
    requires x != 0
    ensures Half(x) < x
  {
  }

  /** The number a word stands for, bit by bit. */
  function Value(x: bv64): nat
    decreases x
  {
    if x == 0 then 0 else HalfIsLess(x); 2 * Value(Half(x)) + LowBit(x)
  }

  lemma Unfold(x: bv64)
    ensures Value(x) == 2 * Value(Half(x)) + LowBit(x)
  {
    if x == 0 { assert Half(x) == 0; }
  }

  // ---- a word below 2^63 stands for a number below 2^63 ----

  predicate Small(x: bv64) { x < 0x8000_0000_0000_0000 }

  function Septet(x: bv64): bv64 { x >> 7 }

  lemma SeptetHalves(x: bv64)
    ensures Half(Half(Half(Half(Half(Half(Half(x))))))) == Septet(x)
  {
  }

  lemma ValueBySeptet(x: bv64)
    ensures Value(x) <= 128 * Value(Septet(x)) + 127
  {
    hide Value, Half, LowBit, Septet;
    var x1 := Half(x);
    var x2 := Half(x1);
    var x3 := Half(x2);
    var x4 := Half(x3);
    var x5 := Half(x4);
    var x6 := Half(x5);
    Unfold(x);
    Unfold(x1);
    Unfold(x2);
    Unfold(x3);
    Unfold(x4);
    Unfold(x5);
    Unfold(x6);
    SeptetHalves(x);
  }

  lemma SmallEnds(x: bv64)
    requires Small(x)
    ensures Value(Septet(Septet(Septet(Septet(Septet(Septet(Septet(Septet(Septet(x)))))))))) == 0
  {
  }

  lemma SmallFits(x: bv64)
    requires Small(x)
    ensures Value(x) <= MAX64
  {
    hide Value, Septet, Small;
    var x1 := Septet(x);
    var x2 := Septet(x1);
    var x3 := Septet(x2);
    var x4 := Septet(x3);
    var x5 := Septet(x4);
    var x6 := Septet(x5);
    var x7 := Septet(x6);
    var x8 := Septet(x7);
    ValueBySeptet(x);
    ValueBySeptet(x1);
    ValueBySeptet(x2);
    ValueBySeptet(x3);
    ValueBySeptet(x4);
    ValueBySeptet(x5);
    ValueBySeptet(x6);
    ValueBySeptet(x7);
    ValueBySeptet(x8);
    SmallEnds(x);
  }

  // ---- the next word ----

  function NextWord(u: bv64): bv64 { u + 1 }

  lemma EvenNext(u: bv64)
    requires LowBit(u) == 0
    ensures Half(NextWord(u)) == Half(u) && LowBit(NextWord(u)) == 1
  {
  }

  lemma OddNext(u: bv64)
    requires LowBit(u) == 1 && Small(u)
    ensures Half(NextWord(u)) == NextWord(Half(u)) && LowBit(NextWord(u)) == 0 && Small(Half(u))
  {
  }

  lemma {:induction false} NextValue(u: bv64)
    requires Small(u)
    ensures Value(NextWord(u)) == Value(u) + 1
    decreases Value(u)
  {
    hide Value, Half, LowBit, Small, NextWord;
    Unfold(u);
    Unfold(NextWord(u));
    if LowBit(u) == 0 {
      EvenNext(u);
    } else {
      OddNext(u);
      NextValue(Half(u));
    }
  }

  // ---- alignment units ----

  predicate AlignedWord(x: bv64) { x & 7 == 0 }

  function UnitOf(x: bv64): bv64 { x >> 3 }

  lemma UnitHalves(x: bv64)
    ensures Half(Half(Half(x))) == UnitOf(x)
    ensures AlignedWord(x) <==> LowBit(x) == 0 && LowBit(Half(x)) == 0 && LowBit(Half(Half(x))) == 0
  {
  }

  lemma ValueByUnit(x: bv64)
    ensures 8 * Value(UnitOf(x)) <= Value(x) < 8 * Value(UnitOf(x)) + 8
    ensures AlignedWord(x) <==> Value(x) == 8 * Value(UnitOf(x))
  {
    hide Value, Half, LowBit, UnitOf, AlignedWord;
    Unfold(x);
    Unfold(Half(x));
    Unfold(Half(Half(x)));
    UnitHalves(x);
  }

  lemma PaddedByUnits(used: bv64)
    requires Small(used)
    ensures AlignedWord(PaddedWord(used)) && Small(UnitOf(used))
    ensures UnitOf(PaddedWord(used)) == if AlignedWord(used) then UnitOf(used) else NextWord(UnitOf(used))
  {
  }

  /** Padding a word with the mask expression gives the word of the padded number, so what is proved of
      Padded holds of the expression. */
  lemma PaddedWordIsPadded(used: bv64)
    requires Small(used)
    ensures Value(used) <= MAX64 && Value(PaddedWord(used)) == Padded(Value(used))
  {
    hide Value, UnitOf, AlignedWord, PaddedWord, Small, NextWord, Padded;
    SmallFits(used);
    PaddedByUnits(used);
    ValueByUnit(used);
    ValueByUnit(PaddedWord(used));
    NextValue(UnitOf(used));
    PaddedRoundsUp(Value(used));
    OneMultiple(Value(used), Value(UnitOf(PaddedWord(used))), Padded(Value(used)));
  }

  lemma OneMultiple(v: nat, k: nat, b: nat)
    requires v <= 8 * k < v + 8 && b % 8 == 0 && v <= b < v + 8
    ensures 8 * k == b
  {
  }
}
