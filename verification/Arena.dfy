/** The bump arena of host/cap/fx_cap_runtime.c: where each grant lies, and that grants never overlap. */
module Arena {
  import opened Wrappers

  const TWO64: int := 0x1_0000_0000_0000_0000
  const MAX64: int := 0x7fff_ffff_ffff_ffff
  const ALIGN: nat := 8

  datatype Grant = Grant(off: nat, len: nat)

  /** x & ~(ALIGN - 1) on a machine word. */
  function Masked(x: nat): nat { x - x % ALIGN }

  /** On 64-bit words the mask clears exactly the remainder by the alignment. */
  lemma MaskClearsRemainder(x: bv64)
    ensures x & !(8 as bv64 - 1) == x - x % 8
  {
  }

  /** The mask expression as it stands, on words: below 2^63 it does not wrap, and it rounds up to the nearest
      aligned offset, as no offset d bytes up from used is aligned before it. */
  function PaddedWord(used: bv64): bv64 { (used + (8 as bv64 - 1)) & !(8 as bv64 - 1) }

  lemma MaskRoundsUp(used: bv64, d: bv64)
    requires used < 0x8000_0000_0000_0000
    ensures PaddedWord(used) & 7 == 0 && used <= PaddedWord(used) && PaddedWord(used) - used < 8
    ensures d < PaddedWord(used) - used ==> (used + d) & 7 != 0
  {
    PaddedIsNear(used);
    if d < PaddedWord(used) - used { NoneBetween(used, d); }
  }

  lemma PaddedIsNear(used: bv64)
    requires used < 0x8000_0000_0000_0000
    ensures PaddedWord(used) & 7 == 0 && used <= PaddedWord(used) && PaddedWord(used) - used < 8
  {
  }

  lemma NoneBetween(used: bv64, d: bv64)
    requires used < 0x8000_0000_0000_0000 && d < PaddedWord(used) - used
    ensures (used + d) & 7 != 0
  {
  }

  /** The next aligned offset, in size_t arithmetic. */
  function Padded(used: nat): nat { Masked((used + (ALIGN - 1)) % TWO64) }

  /** Below 2^63 the sum cannot wrap, so this is rounding up. */
  lemma PaddedRoundsUp(used: nat)
    requires used <= MAX64
    ensures Padded(used) % ALIGN == 0 && used <= Padded(used) < used + ALIGN
    ensures forall off: nat :: off % ALIGN == 0 && used <= off ==> Padded(used) <= off
  {
    var x := used + 7;
    assert x % TWO64 == x;
    assert Padded(used) == (x / 8) * 8;
    forall off: nat | off % ALIGN == 0 && used <= off
      ensures Padded(used) <= off
    {
      assert off == (off / 8) * 8;
    }
  }

  /** guest_bump_alloc: where an allocation of n bytes goes, if it fits. */
  function Bump(used: nat, size: nat, n: int): (r: Option<nat>)
    requires used <= size <= MAX64
  {
    if n <= 0 then None
    else
      var padded := Padded(used);
      if padded > size || n > size - padded then None else Some(padded)
  }

  function Bytes(gs: seq<Grant>): nat {
    if gs == [] then 0 else Bytes(gs[..|gs| - 1]) + gs[|gs| - 1].len
  }

  /** The grants of one arena: aligned, in order and apart, up to used, within size; and what used
      exceeds the granted bytes by is less than one alignment unit for each grant. */
  ghost predicate WfGrants(gs: seq<Grant>, used: nat, size: nat) {
    && used <= size <= MAX64
    && (forall i :: 0 <= i < |gs| ==> gs[i].off % ALIGN == 0 && gs[i].len > 0 && gs[i].off + gs[i].len <= used)
    && (forall i, j :: 0 <= i < j < |gs| ==> gs[i].off + gs[i].len <= gs[j].off)
    && Bytes(gs) <= used <= Bytes(gs) + (ALIGN - 1) * |gs|
  }

  /** A successful allocation keeps all that. */
  lemma BumpKeepsGrants(gs: seq<Grant>, used: nat, size: nat, n: nat)
    requires WfGrants(gs, used, size) && Bump(used, size, n).Some?
    ensures var off := Bump(used, size, n).value;
            && off + n <= size && WfGrants(gs + [Grant(off, n)], off + n, size)
            && forall i :: 0 <= i < |gs| ==> gs[i].off + gs[i].len <= off
  {
    hide Padded;
    PaddedRoundsUp(used);
    var gs' := gs + [Grant(Padded(used), n)];
    assert gs'[..|gs|] == gs;
  }

  /** A block goes to the first aligned place behind used. */
  lemma BumpIsNearest(used: nat, size: nat, n: int, off: nat)
    requires used <= size <= MAX64 && Bump(used, size, n) == Some(off)
    ensures off % 8 == 0 && used <= off < used + 8 && n > 0 && off + n <= size
    ensures forall o: nat :: o % 8 == 0 && used <= o ==> off <= o
  {
    hide Padded;
    PaddedRoundsUp(used);
  }

  /** An allocation is refused exactly when no aligned place behind used has n bytes left. */
  lemma BumpRefusesOnlyWhenFull(used: nat, size: nat, n: nat)
    requires used <= size <= MAX64 && n > 0
    ensures Bump(used, size, n).None? <==> !exists off: nat :: off % ALIGN == 0 && used <= off && off + n <= size
  {
    PaddedRoundsUp(used);
  }
}
