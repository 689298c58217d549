/** Every history of guest sessions: the forest invariant that teardown rests on. */
module GuestRuntime {
  import opened Arena
  import opened Guest
  import opened Wrappers

  // ---- the invariant, object by object ----

  /** Lines never change: they are closed upwards and end at a root. */
  ghost predicate LinesOk(forest: set<Session>) {
    && (forall h :: h in forest ==> h in h.line)
    && (forall h, a :: h in forest && a in h.line ==> a in forest && a.line <= h.line && (a != h ==> a.depth < h.depth))
  }

  /** A live session is a root or listed by its live parent; a dead one has no links and no arena. */
  ghost predicate LinkOk(forest: set<Session>, h: Session)
    requires h in forest
    reads forest`live, forest`parent, forest`children, forest`arena, forest`arenaSize, forest`arenaUsed
  {
    if !h.live then h.parent == null && h.children == [] && !h.arena && h.arenaSize == h.arenaUsed == 0
    else if h.parent == null then h.line == {h}
    else
      && h.parent in forest && h.parent.live && h in h.parent.children
      && h.line == {h} + h.parent.line && h.depth == h.parent.depth + 1
  }

  ghost predicate ChildrenOk(forest: set<Session>, h: Session)
    requires h in forest
    reads forest`live, forest`parent, forest`children
  {
    && |h.children| <= MAX_CHILDREN && Distinct(h.children)
    && forall c :: c in h.children ==> c in forest && c.live && c.parent == h
  }

  ghost predicate ArenaOk(live: bool, arena: bool, grants: seq<Grant>, used: nat, size: nat) {
    live ==> arena && WfGrants(grants, used, size)
  }

  ghost predicate TablesOk(all: set<Cap>, h: Session, t: Tables) {
    forall k :: |t.Of(k)| <= MAX_CAPS && forall c :: c in t.Of(k) ==> c in all && c.owner == h && c.kind == k
  }

  /** A capability is live exactly while its session is, and a budget is never overdrawn. */
  ghost predicate CapOk(forest: set<Session>, c: Cap)
    reads c, forest`live, forest`caps
  {
    && c.owner in forest && c in c.owner.caps.Of(c.kind)
    && (c.live <==> c.owner.live)
    && (Budgeted(c.kind) ==>
      if c.live then c.ctx == c.owner && c.remaining >= 0 && c.remaining + c.granted == c.minted
      else c.ctx == null && c.remaining == 0)
  }

  ghost predicate ForestOk(forest: set<Session>, all: set<Cap>)
    reads forest, all
  {
    && LinesOk(forest)
    && (forall h :: h in forest ==> LinkOk(forest, h))
    && (forall h :: h in forest ==> ChildrenOk(forest, h))
    && (forall h :: h in forest ==> ArenaOk(h.live, h.arena, h.grants, h.arenaUsed, h.arenaSize))
    && (forall h :: h in forest ==> TablesOk(all, h, h.caps))
    && (forall c :: c in all ==> CapOk(forest, c))
  }

  /** The invariant but for g, which has just been unlinked from its parent. */
  ghost predicate UnlinkedOk(forest: set<Session>, all: set<Cap>, g: Session)
    reads forest, all
  {
    && g in forest && g.live && g.parent == null && g.children == []
    && LinesOk(forest)
    && (forall h :: h in forest && h != g ==> LinkOk(forest, h) && h.parent != g)
    && (forall h :: h in forest ==> ChildrenOk(forest, h) && g !in h.children)
    && (forall h :: h in forest ==> ArenaOk(h.live, h.arena, h.grants, h.arenaUsed, h.arenaSize))
    && (forall h :: h in forest ==> TablesOk(all, h, h.caps))
    && (forall c :: c in all ==> CapOk(forest, c))
  }

  /** The live sessions begun under g, g included: what ending g tears down. */
  ghost function LiveBelow(forest: set<Session>, g: Session): set<Session>
    reads forest
  {
    set h | h in forest && h.live && g in h.line
  }

  /** Everything above a live session is live. */
  lemma {:induction false} LineIsLive(forest: set<Session>, all: set<Cap>, h: Session, a: Session)
    requires ForestOk(forest, all) && h in forest && h.live && a in h.line
    ensures a in forest && a.live
    decreases h.depth
  {
    if a != h { LineIsLive(forest, all, h.parent, a); }
  }

  /** A live session without children has nothing live below it. */
  lemma {:induction false} ChildlessIsAlone(forest: set<Session>, all: set<Cap>, g: Session, h: Session)
    requires ForestOk(forest, all) && g in forest && g.children == []
    requires h in forest && h.live && g in h.line
    ensures h == g
    decreases h.depth
  {
    if h != g { ChildlessIsAlone(forest, all, g, h.parent); }
  }

  lemma OwnersIn(forest: set<Session>, all: set<Cap>)
    requires ForestOk(forest, all)
    ensures LinesOk(forest) && forall x :: x in all ==> x.owner in forest
  {
    assert forall x :: x in all ==> CapOk(forest, x);
  }

  /** What lies outside g's subtree lies outside those of the sessions below g. */
  lemma OutsideAll(forest: set<Session>, all: set<Cap>, g: Session, c: Session)
    requires LinesOk(forest) && (forall x :: x in all ==> x.owner in forest) && c in forest && g in c.line
    ensures forall h :: h in forest && g !in h.line ==> c !in h.line
    ensures forall x :: x in all && g !in x.owner.line ==> c !in x.owner.line
  {
  }

  /** The first child of a session is live and below it, and less is live below the child. */
  lemma FirstChild(forest: set<Session>, all: set<Cap>, g: Session)
    requires ForestOk(forest, all) && g in forest && g.live && g.children != []
    ensures var c := g.children[0];
            && c in forest && c.live && c.parent == g && g in c.line && c !in g.line && g in g.line
            && |Without(g.children, c)| == |g.children| - 1
            && LiveBelow(forest, c) < LiveBelow(forest, g)
  {
    var c := g.children[0];
    assert ChildrenOk(forest, g) && LinkOk(forest, c);
    WithoutDrops(g.children, c);
    OwnersIn(forest, all);
    OutsideAll(forest, all, g, c);
    assert g in LiveBelow(forest, g) && g !in LiveBelow(forest, c);
  }

  lemma ParentIsAbove(forest: set<Session>, all: set<Cap>, g: Session)
    requires ForestOk(forest, all) && g in forest
    ensures g in g.line
    ensures var p := g.parent; p != null ==>
      && p in forest && p != g && g !in p.line
      && |Without(p.children, g)| <= MAX_CHILDREN && Distinct(Without(p.children, g))
      && (forall x :: x in p.children && x != g ==> x in Without(p.children, g))
      && forall i :: 0 <= i < |Without(p.children, g)| ==>
        Without(p.children, g)[i] in p.children && Without(p.children, g)[i] != g
  {
    assert LinkOk(forest, g);
    if g.parent != null { WithoutDrops(g.parent.children, g); }
  }

  lemma ArenaFacts(forest: set<Session>, all: set<Cap>, g: Session)
    requires ForestOk(forest, all) && g in forest && g.live
    ensures g.arena && WfGrants(g.grants, g.arenaUsed, g.arenaSize)
  {
    assert ArenaOk(g.live, g.arena, g.grants, g.arenaUsed, g.arenaSize);
  }

  lemma OwnerIsContext(forest: set<Session>, all: set<Cap>, c: Cap)
    requires ForestOk(forest, all) && c in all && c.live && Budgeted(c.kind)
    ensures c.ctx == c.owner && c.owner in forest && c.owner.live && c.remaining + c.granted == c.minted
  {
    assert CapOk(forest, c);
  }

  lemma ContextIsLive(forest: set<Session>, all: set<Cap>, c: Cap)
    requires ForestOk(forest, all) && c in all && Budgeted(c.kind)
    ensures c.owner in forest && (c.ctx != null ==> c.ctx == c.owner && c.owner.live)
  {
    assert CapOk(forest, c);
  }

  /** Nothing below a dead session is live. */
  lemma DeadBelow(forest: set<Session>, all: set<Cap>, g: Session)
    requires ForestOk(forest, all) && g in forest && !g.live
    ensures forall h :: h in forest && g in h.line ==> !h.live
    ensures forall c :: c in all && g in c.owner.line ==> !c.live
    ensures g.parent == null
  {
    assert LinkOk(forest, g);
    forall h | h in forest && g in h.line
      ensures !h.live
    {
      if h.live { LineIsLive(forest, all, h, g); }
    }
    assert forall c :: c in all ==> CapOk(forest, c);
  }

  lemma LinesGrow(forest: set<Session>, p: Session?, g: Session)
    requires LinesOk(forest) && g !in forest && (p != null ==> p in forest)
    requires g.line == {g} + (if p == null then {} else p.line)
    requires g.depth == if p == null then 0 else p.depth + 1
    ensures LinesOk(forest + {g})
  {
    if p != null { assert p in p.line; }
  }

  /** A session starts with an empty arena and empty tables. */
  lemma Founded(g: Session, all: set<Cap>)
    requires g.arena && g.arenaUsed == 0 && g.arenaSize <= MAX64 && g.grants == [] && g.children == []
    requires g.caps == Tables([], [], [], [], [])
    ensures ArenaOk(g.live, g.arena, g.grants, g.arenaUsed, g.arenaSize) && TablesOk(all, g, g.caps)
    ensures Distinct(g.children)
  {
  }

  lemma Joined(s: seq<Session>, g: Session)
    requires Distinct(s) && g !in s
    ensures Distinct(s + [g])
  {
  }

  lemma AddOf(t: Tables, c: Cap, k: Kind)
    ensures t.Add(c).Of(k) == t.Of(k) + (if k == c.kind then [c] else [])
  {
  }

  lemma TablesGrow(all: set<Cap>, h: Session, t: Tables, c: Cap)
    requires TablesOk(all, h, t)
    ensures TablesOk(all + {c}, h, t)
    ensures c.owner == h && |t.Of(c.kind)| < MAX_CAPS ==> TablesOk(all + {c}, h, t.Add(c))
    ensures forall k, x :: x in t.Of(k) ==> x in t.Add(c).Of(k)
    ensures c in t.Add(c).Of(c.kind)
  {
    forall k
      ensures t.Add(c).Of(k) == t.Of(k) + (if k == c.kind then [c] else [])
    {
      AddOf(t, c, k);
    }
  }

  lemma MoreCaps(forest: set<Session>, all: set<Cap>, c: Cap)
    requires ForestOk(forest, all)
    ensures forall h :: h in forest ==> TablesOk(all + {c}, h, h.caps)
  {
    forall h | h in forest
      ensures TablesOk(all + {c}, h, h.caps)
    {
      TablesGrow(all, h, h.caps, c);
    }
  }

  /** The invariant but for g's entry in its parent's child table. */
  ghost predicate NewcomerOk(forest: set<Session>, all: set<Cap>, g: Session)
    reads forest, all
  {
    && g in forest && g.live && g.children == []
    && (g.parent == null ==> g.line == {g})
    && (g.parent != null ==>
      && g.parent in forest && g.parent != g && g.parent.live && |g.parent.children| < MAX_CHILDREN
      && g.line == {g} + g.parent.line && g.depth == g.parent.depth + 1)
    && LinesOk(forest)
    && (forall h :: h in forest && h != g ==> LinkOk(forest, h))
    && (forall h :: h in forest ==> ChildrenOk(forest, h) && g !in h.children)
    && (forall h :: h in forest ==> ArenaOk(h.live, h.arena, h.grants, h.arenaUsed, h.arenaSize))
    && (forall h :: h in forest ==> TablesOk(all, h, h.caps))
    && (forall c :: c in all ==> CapOk(forest, c))
  }

  lemma ForestGrows(forest: set<Session>, all: set<Cap>, g: Session)
    requires ForestOk(forest, all) && g !in forest && g.live && g.children == []
    requires var p := g.parent;
      && (p != null ==> p in forest && p.live && |p.children| < MAX_CHILDREN)
      && g.line == {g} + (if p == null then {} else p.line) && g.depth == if p == null then 0 else p.depth + 1
    requires ArenaOk(g.live, g.arena, g.grants, g.arenaUsed, g.arenaSize) && TablesOk(all, g, g.caps)
    ensures NewcomerOk(forest + {g}, all, g)
  {
    hide LinesOk, TablesOk, ArenaOk;
    LinesGrow(forest, g.parent, g);
    forall h | h in forest
      ensures LinkOk(forest + {g}, h) && ChildrenOk(forest + {g}, h)
    {
      assert LinkOk(forest, h) && ChildrenOk(forest, h);
    }
    forall c | c in all
      ensures CapOk(forest + {g}, c)
    {
      assert CapOk(forest, c);
    }
  }

  const HOST_SIZE: nat := 256

  /** mint_root_or_default: the given root, or else the session's own. */
  function UseRoot(root: string, g: Session?): string {
    if root != "" then root else if g != null then g.root else ""
  }

  class Runtime {
    ghost var forest: set<Session>
    ghost var all: set<Cap>

    ghost predicate Valid()
      reads this, forest, all
    {
      ForestOk(forest, all)
    }

    constructor ()
      ensures Valid() && forest == {} && all == {}
    {
      forest, all := {}, {};
    }

    /** Unlinking a childless session keeps the invariant for everyone but itself. */
    method Detach(g: Session)
      requires Valid() && g in forest && g.live && g.children == []
      modifies g`parent, (if g.parent == null then {} else {g.parent})`children
      ensures UnlinkedOk(forest, all, g)
      ensures var p := old(g.parent); p != null ==> p.children == Without(old(p.children), g)
    {
      hide LinesOk, WfGrants, TablesOk, Without;
      ghost var p := g.parent;
      ParentIsAbove(forest, all, g);
      g.Unlink();
      forall h | h in forest && h != g
        ensures LinkOk(forest, h)
      {
        assert old(LinkOk(forest, h)) && old(h.parent) != g;
      }
      forall h | h in forest
        ensures ChildrenOk(forest, h)
      {
        assert old(ChildrenOk(forest, h)) && (h != p ==> h.children == old(h.children));
        forall c | c in h.children
          ensures c in forest && c != g && c.live && c.parent == h
        {
          assert c in old(h.children);
        }
      }
    }

    /** Ending an unlinked session restores the invariant for all. */
    method Bury(g: Session)
      requires UnlinkedOk(forest, all, g)
      modifies g`live, g`arena, g`arenaSize, g`arenaUsed, set c | c in all && c.owner == g
      ensures Valid() && !g.live
      ensures forall c :: c in all ==> (c.live ==> old(c.live)) && c.granted == old(c.granted)
    {
      hide LinesOk, WfGrants;
      assert TablesOk(all, g, g.caps);
      g.Close();
      forall h | h in forest
        ensures LinkOk(forest, h) && ChildrenOk(forest, h)
      {
        assert h != g ==> old(LinkOk(forest, h));
        assert old(ChildrenOk(forest, h));
      }
      forall c | c in all
        ensures CapOk(forest, c)
      {
        assert old(CapOk(forest, c));
        if c.owner == g { assert c in g.caps.Of(c.kind) && Revoked(c); }
      }
    }

    /** The loop of fx_guest_end that ends the children first. */
    method EndChildren(g: Session)
      requires Valid() && g in forest && g.live
      modifies forest, all
      ensures Valid() && g.live && g.children == []
      ensures unchanged(g`parent, g`arena, g`arenaSize, g`arenaUsed, g`grants, g`caps)
      ensures forall h :: h in forest ==> (h.live ==> old(h.live)) && h.grants == old(h.grants)
      ensures forall c :: c in all ==> (c.live ==> old(c.live)) && c.granted == old(c.granted)
      ensures forall h :: h in forest && g !in h.line ==> unchanged(h)
      ensures forall c :: c in all && g !in c.owner.line ==> unchanged(c)
      decreases LiveBelow(forest, g), 0
    {
      hide ForestOk, Without;
      while |g.children| > 0
        invariant ForestOk(forest, all) && g.live
        invariant unchanged(g`parent, g`arena, g`arenaSize, g`arenaUsed, g`grants, g`caps)
        invariant forall h :: h in forest ==> (h.live ==> old(h.live)) && h.grants == old(h.grants)
        invariant forall c :: c in all ==> (c.live ==> old(c.live)) && c.granted == old(c.granted)
        invariant forall h :: h in forest && g !in h.line ==> unchanged(h)
        invariant forall c :: c in all && g !in c.owner.line ==> unchanged(c)
        decreases |g.children|
      {
        FirstChild(forest, all, g);
        OwnersIn(forest, all);
        OutsideAll(forest, all, g, g.children[0]);
        End(g.children[0]);
      }
    }

    /** fx_guest_end. */
    method End(g: Session)
      requires Valid() && g in forest
      modifies forest, all
      ensures Valid()
      ensures forall h :: h in forest && g in h.line ==> !h.live
      ensures forall h :: h in forest ==> (h.live ==> old(h.live)) && h.grants == old(h.grants)
      ensures forall c :: c in all ==> (c.live ==> old(c.live)) && c.granted == old(c.granted)
      ensures forall c :: c in all && g in c.owner.line ==> !c.live
      ensures forall h :: h in forest && g !in h.line && h != old(g.parent) ==> unchanged(h)
      ensures forall c :: c in all && g !in c.owner.line ==> unchanged(c)
      ensures var p := old(g.parent); p != null ==>
        && p.children == Without(old(p.children), g)
        && unchanged(p`parent, p`live, p`arena, p`arenaSize, p`arenaUsed, p`grants, p`caps)
      decreases LiveBelow(forest, g), 1
    {
      hide ForestOk, LiveBelow;
      if !g.live {
        DeadBelow(forest, all, g);
        return;
      }
      ParentIsAbove(forest, all, g);
      EndChildren(g);
      Detach(g);
      Bury(g);
      DeadBelow(forest, all, g);
    }

    /** Append a new session to its parent's child table. */
    method ListWith(g: Session, p: Session)
      requires NewcomerOk(forest, all, g) && g.parent == p
      modifies p`children
      ensures p.children == old(p.children) + [g] && ChildrenOk(forest, p)
      ensures forall h :: h in forest ==> LinkOk(forest, h)
      ensures forall c :: c in all ==> CapOk(forest, c)
    {
      hide LinesOk, TablesOk, ArenaOk, Distinct, CapOk;
      assert ChildrenOk(forest, p);
      Joined(p.children, g);
      p.children := p.children + [g];
      forall h | h in forest
        ensures LinkOk(forest, h)
      {
        assert h != g ==> old(LinkOk(forest, h));
      }
    }

    /** List a new session with its parent, if it has one. */
    method List(g: Session)
      requires NewcomerOk(forest, all, g)
      modifies (if g.parent == null then {} else {g.parent})`children
      ensures Valid()
      ensures var p := g.parent; p != null ==> p.children == old(p.children) + [g]
    {
      hide LinesOk, TablesOk, ArenaOk, Distinct, CapOk;
      if g.parent == null { return; }
      ListWith(g, g.parent);
      hide LinkOk;
      forall h | h in forest
        ensures ChildrenOk(forest, h)
      {
        assert old(ChildrenOk(forest, h));
      }
    }

    /** Register a new session. */
    method Enter(g: Session)
      requires Valid() && g !in forest && g.live && g.children == []
      requires var p := g.parent;
        && (p != null ==> p in forest && p.live && |p.children| < MAX_CHILDREN)
        && g.line == {g} + (if p == null then {} else p.line) && g.depth == if p == null then 0 else p.depth + 1
      requires ArenaOk(g.live, g.arena, g.grants, g.arenaUsed, g.arenaSize) && TablesOk(all, g, g.caps)
      modifies this`forest, (if g.parent == null then {} else {g.parent})`children
      ensures Valid() && forest == old(forest) + {g}
      ensures var p := g.parent; p != null ==> p.children == old(p.children) + [g]
    {
      hide ForestOk, NewcomerOk;
      ForestGrows(forest, all, g);
      forest := forest + {g};
      List(g);
    }

    /** fx_guest_begin; an empty root stands for none. */
    method Begin(root: string, bytes: int) returns (g: Session?)
      requires Valid() && bytes <= MAX64
      modifies this`forest
      ensures Valid() && (g == null <==> |root| >= 512)
      ensures forest == old(forest) + (if g == null then {} else {g})
      ensures g != null ==> fresh(g) && g.live && g.root == root && g.parent == null && g.line == {g}
      ensures g != null ==> g.arenaSize == (if bytes > 0 then bytes else 65536) && g.arenaUsed == 0 && g.children == []
    {
      hide ForestOk, ArenaOk, TablesOk;
      if |root| >= ROOT_SIZE { return null; }
      g := new Session(root, null, if bytes > 0 then bytes else DEFAULT_ARENA);
      Founded(g, all);
      Enter(g);
    }

    /** fx_guest_begin_nested: refused under a dead parent, or one with a full child table. */
    method BeginNested(p: Session?, root: string, bytes: int) returns (g: Session?)
      requires Valid() && (p != null ==> p in forest) && bytes <= MAX64
      modifies this`forest, (if p == null then {} else {p})`children
      ensures Valid()
      ensures g == null <==>
        p == null || !p.live || |old(p.children)| >= 8 || (if root != "" then |root| >= 512 else |p.root| >= 512)
      ensures forest == old(forest) + (if g == null then {} else {g})
      ensures p != null ==> p.children == old(p.children) + (if g == null then [] else [g])
      ensures g != null ==> fresh(g) && g.live && g.parent == p && g.line == {g} + p.line
      ensures g != null ==> g.root == (if root != "" then root else p.root)
      ensures g != null ==> g.arenaSize == (if bytes > 0 then bytes else 65536) && g.arenaUsed == 0 && g.children == []
    {
      hide ForestOk, ArenaOk, TablesOk;
      if p == null || !p.live || |p.children| >= MAX_CHILDREN { return null; }
      if |UseRoot(root, p)| >= ROOT_SIZE { return null; }
      g := new Session(UseRoot(root, p), p, if bytes > 0 then bytes else DEFAULT_ARENA);
      Founded(g, all);
      Enter(g);
    }

    /** Enter a new capability of a live session in its table. */
    method Tabulate(g: Session, c: Cap)
      requires Valid() && g in forest && g.live && |g.caps.Of(c.kind)| < MAX_CAPS && c !in all
      requires c.owner == g && c.live && c.granted == 0 && c.remaining == c.minted
      requires Budgeted(c.kind) ==> c.ctx == g
      modifies this`all, g`caps
      ensures Valid() && all == old(all) + {c} && g.caps == old(g.caps).Add(c)
    {
      hide LinesOk, TablesOk, ArenaOk, Tables.Add, Tables.Of, LinkOk, ChildrenOk;
      TablesGrow(all, g, g.caps, c);
      MoreCaps(forest, all, c);
      all := all + {c};
      g.caps := g.caps.Add(c);
      forall h | h in forest
        ensures LinkOk(forest, h) && ChildrenOk(forest, h)
      {
        assert old(LinkOk(forest, h)) && old(ChildrenOk(forest, h));
      }
      forall x | x in all
        ensures CapOk(forest, x)
      {
        assert x != c ==> old(CapOk(forest, x));
      }
    }

    method AddCap(g: Session, kind: Kind, scope: Scope, amount: nat) returns (c: Cap)
      requires Valid() && g in forest && g.live && |g.caps.Of(kind)| < MAX_CAPS
      modifies this`all, g`caps
      ensures Valid() && fresh(c) && all == old(all) + {c} && g.caps == old(g.caps).Add(c)
      ensures c.kind == kind && c.scope == scope && c.owner == g
      ensures c.live && c.remaining == c.minted == amount && c.granted == 0
    {
      hide ForestOk;
      c := new Cap(kind, scope, g, amount);
      Tabulate(g, c);
    }

    /** fx_guest_mint_fscap and fx_guest_mint_outcap. */
    method MintRooted(g: Session?, kind: Kind, root: string) returns (c: Cap?)
      requires Valid() && (g != null ==> g in forest) && (kind == Fs || kind == Out)
      modifies this`all, (if g == null then {} else {g})`caps
      ensures Valid() && all == old(all) + (if c == null then {} else {c})
      ensures c == null <==>
        || g == null || !g.live || |if kind == Fs then old(g.caps).fs else old(g.caps).outs| >= 16
        || (if root != "" then |root| >= 512 else g.root == "" || |g.root| >= 512)
      ensures g != null ==> g.caps == if c == null then old(g.caps) else old(g.caps).Add(c)
      ensures c != null ==> fresh(c) && c.kind == kind && c.owner == g && c.live
      ensures c != null ==> c.scope == Under(if root != "" then root else g.root)
    {
      if g == null || !g.live || |g.caps.Of(kind)| >= MAX_CAPS { return null; }
      var use := UseRoot(root, g);
      if use == "" || |use| >= ROOT_SIZE { return null; }
      c := AddCap(g, kind, Under(use), 0);
    }

    /** fx_guest_mint_alloccap and fx_guest_mint_fuelcap. */
    method MintBudget(g: Session?, kind: Kind, amount: int) returns (c: Cap?)
      requires Valid() && (g != null ==> g in forest) && Budgeted(kind)
      modifies this`all, (if g == null then {} else {g})`caps
      ensures Valid() && all == old(all) + (if c == null then {} else {c})
      ensures c == null <==>
        || g == null || !g.live || amount <= 0
        || |if kind == Fuel then old(g.caps).fuels else old(g.caps).allocs| >= 16
      ensures g != null ==> g.caps == if c == null then old(g.caps) else old(g.caps).Add(c)
      ensures c != null ==> fresh(c) && c.kind == kind && c.owner == g && c.live && c.remaining == c.minted == amount
    {
      if g == null || !g.live || amount <= 0 || |g.caps.Of(kind)| >= MAX_CAPS { return null; }
      c := AddCap(g, kind, NoScope, amount);
    }

    /** fx_guest_mint_netcap. */
    method MintNet(g: Session?, host: string, portMin: int, portMax: int) returns (c: Cap?)
      requires Valid() && (g != null ==> g in forest)
      modifies this`all, (if g == null then {} else {g})`caps
      ensures Valid() && all == old(all) + (if c == null then {} else {c})
      ensures c == null <==>
        || g == null || !g.live || |old(g.caps).nets| >= 16
        || !(0 < |host| < 256) || !(1 <= portMin <= portMax <= 65535)
      ensures g != null ==> g.caps == if c == null then old(g.caps) else old(g.caps).Add(c)
      ensures c != null ==>
        fresh(c) && c.kind == Net && c.scope == Dial(host, portMin, portMax) && c.owner == g && c.live
    {
      if g == null || !g.live || host == "" { return null; }
      if portMin < 1 || portMax > 65535 || portMin > portMax { return null; }
      if |g.caps.Of(Net)| >= MAX_CAPS || |host| >= HOST_SIZE { return null; }
      c := AddCap(g, Net, Dial(host, portMin, portMax), 0);
    }

    /** Record a grant of a live session. */
    method Record(g: Session, off: nat, n: nat)
      requires Valid() && g in forest && g.live && WfGrants(g.grants + [Grant(off, n)], off + n, g.arenaSize)
      modifies g`arenaUsed, g`grants
      ensures Valid() && g.arenaUsed == off + n && g.grants == old(g.grants) + [Grant(off, n)]
    {
      hide LinesOk, TablesOk, WfGrants, ChildrenOk, CapOk;
      g.grants := g.grants + [Grant(off, n)];
      g.arenaUsed := off + n;
      forall h | h in forest
        ensures LinkOk(forest, h) && ChildrenOk(forest, h)
      {
        assert old(LinkOk(forest, h)) && old(ChildrenOk(forest, h));
      }
      forall c | c in all
        ensures CapOk(forest, c)
      {
        assert old(CapOk(forest, c));
      }
    }

    /** guest_bump_alloc: the offset of the new block, or none. */
    method Alloc(g: Session?, n: int) returns (r: Option<nat>)
      requires Valid() && (g != null ==> g in forest)
      modifies (if g == null then {} else {g})`arenaUsed, (if g == null then {} else {g})`grants
      ensures Valid()
      ensures g == null || !g.live ==> r == None
      ensures g != null && g.live ==>
        g.arena && old(g.arenaUsed) <= g.arenaSize <= MAX64 && r == Bump(old(g.arenaUsed), g.arenaSize, n)
      ensures g != null ==>
        if r == None then unchanged(g)
        else n > 0 && g.arenaUsed == r.value + n && g.grants == old(g.grants) + [Grant(r.value, n)]
    {
      if g == null || !g.live { return None; }
      ArenaFacts(forest, all, g);
      hide ForestOk;
      if !g.arena { return None; }
      r := Bump(g.arenaUsed, g.arenaSize, n);
      if r.Some? {
        BumpKeepsGrants(g.grants, g.arenaUsed, g.arenaSize, n);
        Record(g, r.value, n);
      }
    }

    /** Take n from the budget of a live capability. */
    method Spend(c: Cap, n: nat)
      requires Valid() && c in all && c.live && Budgeted(c.kind) && n <= c.remaining
      modifies c`remaining, c`granted
      ensures Valid() && c.remaining == old(c.remaining) - n && c.granted == old(c.granted) + n
    {
      hide LinesOk, TablesOk, ArenaOk, LinkOk, ChildrenOk;
      assert CapOk(forest, c);
      c.remaining := c.remaining - n;
      c.granted := c.granted + n;
      forall h | h in forest
        ensures LinkOk(forest, h) && ChildrenOk(forest, h)
      {
        assert old(LinkOk(forest, h)) && old(ChildrenOk(forest, h));
      }
      forall x | x in all
        ensures CapOk(forest, x)
      {
        assert old(CapOk(forest, x));
      }
    }

    /** fx_alloccap_alloc: the arena gives the block, the budget pays for it. */
    method AllocThrough(c: Cap?, n: int) returns (r: Option<nat>)
      requires Valid() && (c != null ==> c in all && c.kind == Kind.Alloc)
      modifies (if c == null then {} else {c})`remaining, (if c == null then {} else {c})`granted
      modifies (if c == null || c.ctx == null then {} else {c.ctx})`arenaUsed
      modifies (if c == null || c.ctx == null then {} else {c.ctx})`grants
      ensures Valid()
      ensures r.Some? <==>
        && c != null && c.live && 0 < n <= old(c.remaining)
        && old(c.owner.arenaUsed) <= c.owner.arenaSize <= MAX64
        && Bump(old(c.owner.arenaUsed), c.owner.arenaSize, n).Some?
      ensures c != null ==>
        if r == None then unchanged(c) && unchanged(c.owner)
        else
          && r == Bump(old(c.owner.arenaUsed), c.owner.arenaSize, n) && c.owner.arenaUsed == r.value + n
          && c.remaining == old(c.remaining) - n && c.granted == old(c.granted) + n
          && c.owner.grants == old(c.owner.grants) + [Grant(r.value, n)]
    {
      if c == null || !c.live { return None; }
      OwnerIsContext(forest, all, c);
      hide ForestOk;
      if n <= 0 || n > c.remaining { return None; }
      r := Alloc(c.ctx, n);
      if r == None { return None; }
      Spend(c, n);
    }

    /** fx_fuelcap_burn. */
    method Burn(c: Cap?, units: int) returns (ok: bool)
      requires Valid() && (c != null ==> c in all && c.kind == Fuel)
      modifies (if c == null then {} else {c})`remaining, (if c == null then {} else {c})`granted
      ensures Valid() && (ok <==> c != null && c.live && 0 < units <= old(c.remaining))
      ensures c != null ==>
        if ok then c.remaining == old(c.remaining) - units && c.granted == old(c.granted) + units else unchanged(c)
    {
      if c == null || !c.live || units <= 0 || units > c.remaining { return false; }
      Spend(c, units);
      return true;
    }
  }
}
