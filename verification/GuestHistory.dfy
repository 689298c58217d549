/** Whole histories of guest calls: handles are numbered in the order they were handed out, and a number
    that was never handed out, or that names a handle of another kind, is the null handle. */
module GuestHistory {
  import opened Arena
  import opened Guest
  import opened GuestRuntime

  type Int64 = x: int | -MAX64 - 1 <= x <= MAX64

  datatype Op =
    | OBegin(root: string, bytes: Int64)
    | ONested(parent: nat, root: string, bytes: Int64)
    | OEnd(g: nat)
    | OMintFs(g: nat, root: string)
    | OMintOut(g: nat, root: string)
    | OMintAlloc(g: nat, amount: Int64)
    | OMintFuel(g: nat, amount: Int64)
    | OMintNet(g: nat, host: string, portMin: int, portMax: int)
    | OAlloc(g: nat, n: Int64)
    | OAllocThrough(c: nat, n: Int64)
    | OBurn(c: nat, n: Int64)

  function SessionAt(hs: seq<Session>, i: nat): Session? { if i < |hs| then hs[i] else null }
  function CapAt(cs: seq<Cap>, i: nat, kind: Kind): Cap? {
    if i < |cs| && cs[i].kind == kind then cs[i] else null
  }

  /** The capability that an operation mints, and for which session. */
  predicate Minted(op: Op, k: Kind) {
    match op
    case OMintFs(_, _) => k == Fs
    case OMintOut(_, _) => k == Out
    case OMintAlloc(_, _) => k == Kind.Alloc
    case OMintFuel(_, _) => k == Fuel
    case OMintNet(_, _, _, _) => k == Net
    case _ => false
  }

  function MintedBy(op: Op): nat {
    match op
    case OMintFs(i, _) => i
    case OMintOut(i, _) => i
    case OMintAlloc(i, _) => i
    case OMintFuel(i, _) => i
    case OMintNet(i, _, _, _) => i
    case _ => 0
  }

  predicate IsMint(op: Op) { op.OMintFs? || op.OMintOut? || op.OMintAlloc? || op.OMintFuel? || op.OMintNet? }
  predicate IsSpend(op: Op) { op.OAlloc? || op.OAllocThrough? || op.OBurn? }

  /** Why a live session does not mint: its table is full, or the request does not fit. */
  predicate Refuses(op: Op, root: string, t: Tables)
    requires IsMint(op)
  {
    match op
    case OMintFs(_, r) => |t.fs| >= 16 || (if r != "" then |r| >= 512 else root == "" || |root| >= 512)
    case OMintOut(_, r) => |t.outs| >= 16 || (if r != "" then |r| >= 512 else root == "" || |root| >= 512)
    case OMintAlloc(_, amount) => |t.allocs| >= 16 || amount <= 0
    case OMintFuel(_, amount) => |t.fuels| >= 16 || amount <= 0
    case OMintNet(_, host, lo, hi) => |t.nets| >= 16 || !(0 < |host| < 256) || !(1 <= lo <= hi <= 65535)
  }

  method PerformMint(rt: Runtime, op: Op, hs: seq<Session>) returns (c: Cap?)
    requires rt.Valid() && (forall h :: h in hs ==> h in rt.forest) && IsMint(op)
    modifies rt`all, rt.forest`caps
    ensures rt.Valid() && rt.all == old(rt.all) + (if c == null then {} else {c})
    ensures c != null ==> fresh(c) && c.live && Minted(op, c.kind) && c.owner == SessionAt(hs, MintedBy(op))
    ensures op.OMintAlloc? && c != null ==> c.remaining == op.amount > 0
    ensures op.OMintFuel? && c != null ==> c.remaining == op.amount > 0
    ensures var g := SessionAt(hs, MintedBy(op));
            c == null <==> g == null || !g.live || Refuses(op, g.root, old(g.caps))
  {
    hide ForestOk;
    match op {
      case OMintFs(i, root) => c := rt.MintRooted(SessionAt(hs, i), Fs, root);
      case OMintOut(i, root) => c := rt.MintRooted(SessionAt(hs, i), Out, root);
      case OMintAlloc(i, amount) => c := rt.MintBudget(SessionAt(hs, i), Kind.Alloc, amount);
      case OMintFuel(i, amount) => c := rt.MintBudget(SessionAt(hs, i), Fuel, amount);
      case OMintNet(i, host, portMin, portMax) => c := rt.MintNet(SessionAt(hs, i), host, portMin, portMax);
    }
  }

  method PerformSpend(rt: Runtime, op: Op, hs: seq<Session>, cs: seq<Cap>)
    requires rt.Valid() && (forall h :: h in hs ==> h in rt.forest) && (forall x :: x in cs ==> x in rt.all)
    requires IsSpend(op)
    modifies rt.forest`arenaUsed, rt.forest`grants, rt.all`remaining, rt.all`granted
    ensures rt.Valid()
    ensures forall h :: h in rt.forest && !h.live ==> h.grants == old(h.grants)
    ensures forall x :: x in rt.all && !x.live ==> x.granted == old(x.granted)
    ensures op.OAlloc? ==> forall h :: h in rt.forest && h == SessionAt(hs, op.g) && h.live ==>
      0 < op.n && old(h.arenaUsed) + 7 + op.n <= h.arenaSize ==> |h.grants| == old(|h.grants|) + 1
    ensures op.OBurn? ==> forall x :: x in rt.all && x == CapAt(cs, op.c, Fuel) && x.live ==>
      x.remaining == old(x.remaining) - (if 0 < op.n <= old(x.remaining) then op.n else 0)
  {
    hide ForestOk;
    match op {
      case OAlloc(i, n) =>
        var h := SessionAt(hs, i);
        if h != null && h.arenaUsed <= MAX64 { PaddedRoundsUp(h.arenaUsed); }
        var r := rt.Alloc(h, n);
      case OAllocThrough(i, n) =>
        var x := CapAt(cs, i, Kind.Alloc);
        if x != null { ContextIsLive(rt.forest, rt.all, x); }
        var r := rt.AllocThrough(x, n);
      case OBurn(i, n) => var ok := rt.Burn(CapAt(cs, i, Fuel), n);
    }
  }

  /** One call, and the handles it adds. */
  method Perform(rt: Runtime, op: Op, hs: seq<Session>, cs: seq<Cap>) returns (g: Session?, c: Cap?)
    requires rt.Valid() && (forall h :: h in hs ==> h in rt.forest) && (forall x :: x in cs ==> x in rt.all)
    modifies rt, rt.forest, rt.all
    ensures rt.Valid() && (g != null ==> g in rt.forest) && (c != null ==> c in rt.all)
    ensures old(rt.forest) <= rt.forest && fresh(rt.forest - old(rt.forest))
    ensures old(rt.all) <= rt.all && fresh(rt.all - old(rt.all))
    ensures forall h :: h in old(rt.forest) && !old(h.live) ==> !h.live && h.grants == old(h.grants)
    ensures forall x :: x in old(rt.all) && !old(x.live) ==> !x.live && x.granted == old(x.granted)
    // the operation is carried out
    ensures op.OBegin? ==> if |op.root| >= 512 then g == null else g != null && g.live && g.root == op.root
    ensures op.ONested? && g != null ==> g.live && g.parent != null && g.parent == SessionAt(hs, op.parent)
    ensures g != null ==> g !in old(rt.forest)
    ensures op.OEnd? ==> forall h :: h in rt.forest && SessionAt(hs, op.g) in h.line ==> !h.live
    ensures c != null ==>
      c !in old(rt.all) && c.live && Minted(op, c.kind) && c.owner == SessionAt(hs, MintedBy(op))
    ensures op.OMintAlloc? && c != null ==> c.remaining == op.amount > 0
    ensures op.OMintFuel? && c != null ==> c.remaining == op.amount > 0
  {
    hide ForestOk;
    g, c := null, null;
    match op {
      case OBegin(root, bytes) => g := rt.Begin(root, bytes);
      case ONested(p, root, bytes) => g := rt.BeginNested(SessionAt(hs, p), root, bytes);
      case OEnd(i) =>
        var h := SessionAt(hs, i);
        if h != null { rt.End(h); }
      case OAlloc(_, _) => PerformSpend(rt, op, hs, cs);
      case OAllocThrough(_, _) => PerformSpend(rt, op, hs, cs);
      case OBurn(_, _) => PerformSpend(rt, op, hs, cs);
      case _ => c := PerformMint(rt, op, hs);
    }
  }

  /** Every history: the forest invariant holds throughout, and a session or a capability that is dead at
      any point of it stays dead and grants nothing any more. */
  method Continue(rt: Runtime, ops: seq<Op>, hs0: seq<Session>, cs0: seq<Cap>)
    returns (hs: seq<Session>, cs: seq<Cap>)
    requires rt.Valid() && (forall h :: h in hs0 ==> h in rt.forest) && (forall x :: x in cs0 ==> x in rt.all)
    modifies rt, rt.forest, rt.all
    ensures rt.Valid() && hs0 <= hs && cs0 <= cs
    ensures (forall h :: h in hs ==> h in rt.forest) && (forall x :: x in cs ==> x in rt.all)
    ensures old(rt.forest) <= rt.forest && old(rt.all) <= rt.all
    ensures forall h :: h in old(rt.forest) && !old(h.live) ==> !h.live && h.grants == old(h.grants)
    ensures forall x :: x in old(rt.all) && !old(x.live) ==> !x.live && x.granted == old(x.granted)
  {
    hide ForestOk;
    hs, cs := hs0, cs0;
    for i := 0 to |ops|
      invariant rt.Valid() && hs0 <= hs && cs0 <= cs
      invariant (forall h :: h in hs ==> h in rt.forest) && (forall x :: x in cs ==> x in rt.all)
      invariant old(rt.forest) <= rt.forest && fresh(rt.forest - old(rt.forest))
      invariant old(rt.all) <= rt.all && fresh(rt.all - old(rt.all))
      invariant forall h :: h in old(rt.forest) && !old(h.live) ==> !h.live && h.grants == old(h.grants)
      invariant forall x :: x in old(rt.all) && !old(x.live) ==> !x.live && x.granted == old(x.granted)
    {
      var g, c := Perform(rt, ops[i], hs, cs);
      if g != null { hs := hs + [g]; }
      if c != null { cs := cs + [c]; }
    }
  }

  // ---- what the invariant promises of every session and capability ----

  /** A live session has only live sessions above it, and is listed once with its parent. */
  lemma LiveHasLiveLine(forest: set<Session>, all: set<Cap>, h: Session)
    requires ForestOk(forest, all) && h in forest && h.live
    ensures forall a :: a in h.line ==> a in forest && a.live
    ensures h.parent != null ==> h in h.parent.children && |h.parent.children| <= 8
  {
    forall a | a in h.line
      ensures a in forest && a.live
    {
      LineIsLive(forest, all, h, a);
    }
    assert LinkOk(forest, h);
    if h.parent != null { assert ChildrenOk(forest, h.parent); }
  }

  /** Every block ever granted by a live session is aligned and inside its arena, and what the arena used
      beyond the granted bytes is less than one alignment unit a block. */
  lemma GrantFits(forest: set<Session>, all: set<Cap>, h: Session, i: nat)
    requires ForestOk(forest, all) && h in forest && h.live && i < |h.grants|
    ensures var a := h.grants[i]; a.off % ALIGN == 0 && a.len > 0 && a.off + a.len <= h.arenaUsed <= h.arenaSize
    ensures Bytes(h.grants) <= h.arenaUsed < Bytes(h.grants) + ALIGN * |h.grants|
  {
    ArenaFacts(forest, all, h);
  }

  /** No two of them overlap. */
  lemma GrantsAreApart(forest: set<Session>, all: set<Cap>, h: Session, i: nat, j: nat)
    requires ForestOk(forest, all) && h in forest && h.live && i < |h.grants| && j < |h.grants| && i != j
    ensures var a, b := h.grants[i], h.grants[j]; a.off + a.len <= b.off || b.off + b.len <= a.off
  {
    ArenaFacts(forest, all, h);
  }

  /** A capability is live exactly while its session is; a live budget is what was minted less what it
      gave, and a dead one is nothing. */
  lemma CapFollowsSession(forest: set<Session>, all: set<Cap>, c: Cap)
    requires ForestOk(forest, all) && c in all
    ensures c.owner in forest && (c.live <==> c.owner.live) && c in c.owner.caps.Of(c.kind)
    ensures |c.owner.caps.Of(c.kind)| <= 16
    ensures Budgeted(c.kind) ==> if c.live then 0 <= c.remaining == c.minted - c.granted else c.remaining == 0
  {
    assert CapOk(forest, c);
    assert TablesOk(all, c.owner, c.owner.caps);
  }
}
