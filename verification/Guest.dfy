/** The guest sessions of host/cap/fx_cap_runtime.c: a forest of mutable sessions, the capabilities they
    mint, and recursive teardown. A handle is an object reference; a null handle is refused. */
module Guest {
  import opened Arena

  const MAX_CAPS: nat := 16
  const MAX_CHILDREN: nat := 8
  const DEFAULT_ARENA: nat := 64 * 1024
  const ROOT_SIZE: nat := 512

  datatype Kind = Fs | Out | Alloc | Fuel | Net

  predicate Budgeted(k: Kind) { k == Alloc || k == Fuel }

  /** What a capability allows besides spending a budget: the root of an FsCap or OutCap, the host and port
      range of a NetCap. */
  datatype Scope = NoScope | Under(root: string) | Dial(host: string, portMin: int, portMax: int)

  /** A capability of any of the five kinds. Only AllocCap and FuelCap use ctx and remaining. */
  class Cap {
    const kind: Kind
    const scope: Scope
    ghost const owner: Session
    ghost const minted: nat
    ghost var granted: nat
    var live: bool
    var ctx: Session?
    var remaining: int

    constructor (kind: Kind, scope: Scope, s: Session, amount: nat)
      ensures this.kind == kind && this.scope == scope && owner == s && minted == amount && granted == 0 && live
      ensures ctx == (if Budgeted(kind) then s else null) && remaining == amount
    {
      this.kind, this.scope, owner, minted, granted, live := kind, scope, s, amount, 0, true;
      ctx := if Budgeted(kind) then s else null;
      remaining := amount;
    }

    /** The deny tombstone that session end leaves. */
    method Revoke()
      modifies this`live, this`ctx, this`remaining
      ensures !live && (Budgeted(kind) ==> ctx == null && remaining == 0)
      ensures !Budgeted(kind) ==> ctx == old(ctx) && remaining == old(remaining)
    {
      live := false;
      if Budgeted(kind) {
        ctx := null;
        remaining := 0;
      }
    }
  }

  /** Swap-remove of position i. */
  function SwapRemove<T>(s: seq<T>, i: nat): seq<T>
    requires i < |s|
  {
    s[i := s[|s| - 1]][..|s| - 1]
  }

  /** The last element moves into the place of the removed one, and the others stay. */
  lemma SwapRemoveMovesLast<T>(s: seq<T>, i: nat)
    requires i < |s|
    ensures |SwapRemove(s, i)| == |s| - 1
    ensures forall j :: 0 <= j < |s| - 1 ==> SwapRemove(s, i)[j] == if j == i then s[|s| - 1] else s[j]
  {
  }

  ghost predicate Distinct<T>(s: seq<T>) { forall i, j :: 0 <= i < j < |s| ==> s[i] != s[j] }

  lemma SwapRemoveDrops<T>(s: seq<T>, i: nat)
    requires i < |s| && Distinct(s)
    ensures Distinct(SwapRemove(s, i)) && |SwapRemove(s, i)| == |s| - 1
    ensures forall x :: x in SwapRemove(s, i) <==> x in s && x != s[i]
  {
    var r, n := SwapRemove(s, i), |s| - 1;
    forall x | x in s && x != s[i]
      ensures x in r
    {
      var j :| 0 <= j < |s| && s[j] == x;
      assert r[if j == n then i else j] == x;
    }
  }

  /** The five capability tables of a session. */
  datatype Tables = Tables(fs: seq<Cap>, outs: seq<Cap>, allocs: seq<Cap>, fuels: seq<Cap>, nets: seq<Cap>) {
    function Of(k: Kind): seq<Cap> {
      match k
      case Fs => fs
      case Out => outs
      case Alloc => allocs
      case Fuel => fuels
      case Net => nets
    }

    function Add(c: Cap): Tables {
      match c.kind
      case Fs => this.(fs := fs + [c])
      case Out => this.(outs := outs + [c])
      case Alloc => this.(allocs := allocs + [c])
      case Fuel => this.(fuels := fuels + [c])
      case Net => this.(nets := nets + [c])
    }
  }

  class Session {
    const root: string
    /** The sessions it was begun under, itself included, and how many those are above it. */
    ghost const line: set<Session>
    ghost const depth: nat
    var parent: Session?
    var children: seq<Session>
    var live: bool
    var arena: bool
    var arenaSize: nat
    var arenaUsed: nat
    ghost var grants: seq<Grant>
    var caps: Tables

    constructor (root: string, parent: Session?, bytes: nat)
      ensures this.root == root && this.parent == parent && children == [] && live
      ensures line == {this} + (if parent == null then {} else parent.line)
      ensures depth == (if parent == null then 0 else parent.depth + 1)
      ensures arena && arenaSize == bytes && arenaUsed == 0 && grants == []
      ensures caps == Tables([], [], [], [], [])
    {
      this.root, this.parent, children, live := root, parent, [], true;
      line := {this} + (if parent == null then {} else parent.line);
      depth := if parent == null then 0 else parent.depth + 1;
      arena, arenaSize, arenaUsed, grants := true, bytes, 0, [];
      caps := Tables([], [], [], [], []);
    }

    /** guest_unlink_from_parent: swap-remove from the parent's child table. */
    method Unlink()
      modifies this`parent, (if parent == null then {} else {parent})`children
      ensures parent == null
      ensures var p := old(parent); p != null ==> p.children == Without(old(p.children), this)
    {
      if parent == null { return; }
      var p := parent;
      var i := 0;
      while i < |p.children|
        invariant i <= |p.children| && p == parent == old(parent) && p.children == old(p.children)
        invariant this !in p.children[..i]
      {
        if p.children[i] == this {
          WithoutAt(p.children, this, i);
          p.children := SwapRemove(p.children, i);
          break;
        }
        i := i + 1;
      }
      assert i == |old(p.children)| ==> old(p.children)[..i] == old(p.children);
      parent := null;
    }

    /** Revoke every capability of one table. */
    method RevokeTable(k: Kind)
      modifies set c | c in caps.Of(k)
      ensures forall c :: c in caps.Of(k) ==> Revoked(c) && c.granted == old(c.granted)
    {
      var t := caps.Of(k);
      for i := 0 to |t|
        invariant forall c :: c in t[..i] ==> Revoked(c)
        invariant forall c :: c in t ==> c.granted == old(c.granted)
      {
        t[i].Revoke();
        assert t[..i + 1] == t[..i] + [t[i]];
      }
      assert t[..|t|] == t;
    }

    /** The rest of a session's end, once it is unlinked: revoke, release the arena, and die. */
    method Close()
      modifies this`live, this`arena, this`arenaSize, this`arenaUsed, set k, c | c in caps.Of(k) :: c
      ensures !live && !arena && arenaSize == arenaUsed == 0
      ensures forall k, c :: c in caps.Of(k) ==> Revoked(c) && c.granted == old(c.granted)
    {
      RevokeTable(Fs);
      RevokeTable(Out);
      RevokeTable(Alloc);
      RevokeTable(Fuel);
      RevokeTable(Net);
      arena, arenaSize, arenaUsed, live := false, 0, 0, false;
    }
  }

  /** What revoking leaves of a capability. */
  ghost predicate Revoked(c: Cap)
    reads c
  {
    !c.live && (Budgeted(c.kind) ==> c.ctx == null && c.remaining == 0)
  }

  function Without(s: seq<Session>, g: Session): seq<Session> {
    if exists i :: 0 <= i < |s| && s[i] == g then SwapRemove(s, First(s, g)) else s
  }

  function First(s: seq<Session>, g: Session): (i: nat)
    requires g in s
    ensures i < |s| && s[i] == g && g !in s[..i]
  {
    if s[0] == g then 0 else 1 + First(s[1..], g)
  }

  lemma WithoutAt(s: seq<Session>, g: Session, i: nat)
    requires i < |s| && s[i] == g && g !in s[..i]
    ensures Without(s, g) == SwapRemove(s, i)
  {
    var j := First(s, g);
    assert forall k :: 0 <= k < i ==> s[k] in s[..i];
    assert forall k :: 0 <= k < j ==> s[k] in s[..j];
  }

  lemma WithoutDrops(s: seq<Session>, g: Session)
    requires Distinct(s)
    ensures Distinct(Without(s, g)) && forall x :: x in Without(s, g) <==> x in s && x != g
    ensures |Without(s, g)| == |s| - (if g in s then 1 else 0)
  {
    if g in s { SwapRemoveDrops(s, First(s, g)); }
  }
}
