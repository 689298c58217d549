/** The task nursery of host/concur/fx_task_nursery.c: its critical sections on the slot array, and what
    each computes. */
module Nursery {
  const HARD_MAX: nat := 64

  datatype Rc = Ok | Err | Full | Dead | Timeout

  /** A nursery as seen under its lock: one joined flag per used slot, in spawn order. */
  datatype View = View(live: bool, cancel: bool, cap: nat, joined: seq<bool>)

  /** The first slot from i on that is not joined, or the number of slots. */
  function NextPending(joined: seq<bool>, i: nat): (k: nat)
    requires i <= |joined|
    ensures i <= k <= |joined|
    ensures forall j :: i <= j < k ==> joined[j]
    ensures k < |joined| ==> !joined[k]
    decreases |joined| - i
  {
    if i < |joined| && joined[i] then NextPending(joined, i + 1) else i
  }

  function PendingCount(joined: seq<bool>): nat {
    if joined == [] then 0
    else PendingCount(joined[..|joined| - 1]) + (if joined[|joined| - 1] then 0 else 1)
  }

  /** It counts the slots that are not joined. */
  lemma {:induction false} PendingCountCounts(joined: seq<bool>)
    ensures PendingCount(joined) == |set i | 0 <= i < |joined| && !joined[i]|
  {
    if joined != [] {
      var m := |joined| - 1;
      PendingCountCounts(joined[..m]);
      var rest := set i | 0 <= i < m && !joined[..m][i];
      assert (set i | 0 <= i < |joined| && !joined[i]) == rest + (if joined[m] then {} else {m});
    }
  }

  function SpawnRc(v: View, created: bool): Rc {
    if !v.live then Dead else if |v.joined| >= v.cap then Full else if !created then Err else Rc.Ok
  }

  /** A spawn answers OK exactly on a live nursery with a free slot and a created thread; it refuses a dead
      nursery first and a full one next. */
  lemma SpawnAnswers(v: View, created: bool)
    ensures SpawnRc(v, created) == Rc.Ok <==> v.live && |v.joined| < v.cap && created
    ensures SpawnRc(v, created) == Dead <==> !v.live
    ensures SpawnRc(v, created) == Full <==> v.live && |v.joined| >= v.cap
    ensures SpawnRc(v, created) == Err <==> v.live && |v.joined| < v.cap && !created
    ensures Spawned(v, created) ==
      if v.live && |v.joined| < v.cap && created then View(true, v.cancel, v.cap, v.joined + [false]) else v
  {
  }

  function Spawned(v: View, created: bool): View {
    if SpawnRc(v, created) == Rc.Ok then v.(joined := v.joined + [false]) else v
  }

  function Cancelled(v: View): View { if v.live then v.(cancel := true) else v }

  /** A request sets the flag of a live nursery, and nothing else. */
  lemma RequestSetsCancel(v: View)
    ensures Cancelled(v) == View(v.live, v.live || v.cancel, v.cap, v.joined)
  {
  }

  datatype Slot = Slot(used: bool, joined: bool)

  class FxNursery {
    var live: bool
    var cancel: bool
    var n: nat
    const slots: array<Slot>

    ghost predicate Valid()
      reads this, slots
    {
      n <= slots.Length <= HARD_MAX && forall i :: 0 <= i < n ==> slots[i].used
    }

    ghost function Abs(): View
      requires Valid()
      reads this, slots
    {
      View(live, cancel, slots.Length,
           seq(n, i requires 0 <= i < n <= slots.Length reads this, slots => slots[i].joined))
    }

    constructor (max: nat)
      requires 1 <= max <= HARD_MAX
      ensures Valid() && fresh(slots) && Abs() == View(true, false, max, [])
    {
      slots := new Slot[max](_ => Slot(false, false));
      live, cancel, n := true, false, 0;
    }

    /** fx_nursery_create_sized: no nursery for a size out of range. */
    static method Create(max: int) returns (r: FxNursery?)
      ensures r == null <==> max < 1 || max > 64
      ensures r != null ==> fresh(r) && r.Valid() && r.Abs() == View(true, false, max, [])
    {
      if max < 1 || max > HARD_MAX { return null; }
      r := new FxNursery(max);
    }

    method RequestCancel() returns (rc: Rc)
      requires Valid()
      modifies this`cancel
      ensures Valid() && Abs() == Cancelled(old(Abs())) && rc == if old(live) then Rc.Ok else Dead
    {
      if !live { return Dead; }
      cancel := true;
      return Rc.Ok;
    }

    /** created says whether the thread could be created. */
    method Spawn(created: bool) returns (rc: Rc)
      requires Valid()
      modifies this`n, slots
      ensures Valid() && rc == SpawnRc(old(Abs()), created) && Abs() == Spawned(old(Abs()), created)
    {
      if !live { return Dead; }
      if n >= slots.Length { return Full; }
      slots[n] := Slot(true, false);
      if !created {
        slots[n] := Slot(false, false);
        return Err;
      }
      n := n + 1;
      return Rc.Ok;
    }

    method Pending() returns (p: nat)
      requires Valid()
      ensures p == PendingCount(Abs().joined)
    {
      p := 0;
      ghost var joined := Abs().joined;
      for i := 0 to n
        invariant p == PendingCount(joined[..i])
      {
        assert joined[..i + 1][..i] == joined[..i];
        if slots[i].used && !slots[i].joined { p := p + 1; }
      }
      assert joined[..n] == joined;
    }

    /** The join loop from slot i up to the slot it must wait for, or its end. */
    method Scan(start: nat) returns (i: nat)
      requires Valid() && start <= n
      ensures i == NextPending(Abs().joined, start)
    {
      i := start;
      while i < n
        invariant start <= i <= n && NextPending(Abs().joined, start) == NextPending(Abs().joined, i)
      {
        if slots[i].used && !slots[i].joined { break; }
        i := i + 1;
      }
    }

    /** The join loop once it has retaken the lock behind slot i's thread. */
    method MarkJoined(i: nat) returns (next: nat)
      requires Valid() && i < n
      modifies slots
      ensures Valid() && Abs() == old(Abs()).(joined := old(Abs()).joined[i := true])
      ensures next == NextPending(Abs().joined, i + 1)
    {
      slots[i] := Slot(slots[i].used, true);
      next := Scan(i + 1);
    }

    method EndShutdown()
      requires Valid()
      modifies this`live
      ensures Valid() && Abs() == old(Abs()).(live := false)
    {
      live := false;
    }
  }
}
