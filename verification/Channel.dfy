/** The bounded channel of host/concur/fx_chan.c: a ring buffer, and the queue it implements.
    Each method below is one pass through the lock, up to unlocking or waiting. */
module Channel {
  import opened Numeric

  /** The queue a channel stands for. */
  datatype Queue = Queue(items: seq<int>, cap: nat, closed: bool)

  predicate WfQueue(q: Queue) { 1 <= q.cap && |q.items| <= q.cap }

  /** How a pass ends: the call returns, or waits on its condition variable. */
  datatype Outcome = Ok | Closed | Empty | Wait

  function SendOutcome(q: Queue): Outcome {
    if q.closed then Closed else if |q.items| < q.cap then Ok else Wait
  }

  function RecvOutcome(q: Queue): Outcome {
    if q.items != [] then Ok else if q.closed then Closed else Wait
  }

  function TryOutcome(q: Queue): Outcome {
    if q.items != [] then Ok else if q.closed then Closed else Empty
  }

  function Sent(q: Queue, v: int): Queue {
    if SendOutcome(q) == Ok then q.(items := q.items + [v]) else q
  }

  function Taken(q: Queue): Queue { if q.items != [] then q.(items := q.items[1..]) else q }

  // ---- the ring ----

  /** The slot i places behind head in a buffer of cap slots. */
  function SlotAt(head: nat, i: nat, cap: nat): (k: nat)
    requires head < cap && i <= cap
    ensures k == (if head + i < cap then head + i else head + i - cap) < cap
  {
    ModOnce(head + i, cap);
    (head + i) % cap
  }

  lemma ModOnce(x: nat, cap: nat)
    requires x < 2 * cap
    ensures x % cap == if x < cap then x else x - cap
  {
    if x >= cap {
      assert x == (x - cap) + 1 * cap;
      assert (x - cap) % cap == x - cap;
    }
  }

  /** The n elements found from head on, around the end of the buffer. */
  function Ring(buf: seq<int>, head: nat, n: nat): (s: seq<int>)
    requires head < |buf| && n <= |buf|
    ensures |s| == n
  {
    seq(n, i requires 0 <= i < n => buf[SlotAt(head, i, |buf|)])
  }

  lemma RingPush(buf: seq<int>, head: nat, n: nat, v: int)
    requires head < |buf| && n < |buf|
    ensures Ring(buf[SlotAt(head, n, |buf|) := v], head, n + 1) == Ring(buf, head, n) + [v]
  {
    hide SlotAt;
    var r := Ring(buf[SlotAt(head, n, |buf|) := v], head, n + 1);
    assert forall i :: 0 <= i < n ==> r[i] == Ring(buf, head, n)[i];
  }

  lemma RingPop(buf: seq<int>, head: nat, n: nat)
    requires head < |buf| && 0 < n <= |buf|
    ensures buf[head] == Ring(buf, head, n)[0]
    ensures Ring(buf, SlotAt(head, 1, |buf|), n - 1) == Ring(buf, head, n)[1..]
  {
    hide SlotAt;
    var r := Ring(buf, SlotAt(head, 1, |buf|), n - 1);
    assert forall i :: 0 <= i < n - 1 ==> r[i] == Ring(buf, head, n)[i + 1];
  }

  class FxChan {
    const buf: array<int>
    var len: nat
    var head: nat
    var closed: bool

    ghost predicate Valid()
      reads this, buf
    {
      head < buf.Length && len <= buf.Length
    }

    ghost function View(): Queue
      requires Valid()
      reads this, buf
    {
      Queue(Ring(buf[..], head, len), buf.Length, closed)
    }

    constructor (capacity: int)
      ensures Valid() && fresh(buf)
      ensures View() == Queue([], if capacity < 1 then 1 else capacity, false)
    {
      var c: nat := if capacity < 1 then 1 else capacity;
      buf := new int[c](_ => 0);
      len, head, closed := 0, 0, false;
    }

    /** fx_chan_send_i64, from holding the lock on. */
    method SendPass(v: int) returns (rc: Outcome)
      requires Valid()
      modifies this, buf
      ensures Valid() && rc == SendOutcome(old(View())) && View() == Sent(old(View()), v)
    {
      if len >= buf.Length && !closed { return Wait; }
      if closed { return Closed; }
      RingPush(buf[..], head, len, v);
      buf[SlotAt(head, len, buf.Length)] := v;
      len := len + 1;
      return Ok;
    }

    method Take() returns (v: int)
      requires Valid() && len > 0
      modifies this`head, this`len
      ensures Valid() && v == old(View()).items[0] && View() == Taken(old(View()))
    {
      RingPop(buf[..], head, len);
      v := buf[head];
      head := SlotAt(head, 1, buf.Length);
      len := len - 1;
    }

    /** fx_chan_recv_i64, from holding the lock on; out is written only on Ok. */
    method RecvPass(out: int) returns (rc: Outcome, out': int)
      requires Valid()
      modifies this`head, this`len
      ensures Valid() && rc == RecvOutcome(old(View())) && View() == Taken(old(View()))
      ensures out' == if rc == Ok then old(View()).items[0] else out
    {
      if len == 0 && !closed { return Wait, out; }
      if len == 0 && closed { return Closed, out; }
      var v := Take();
      return Ok, v;
    }

    /** fx_chan_try_recv; the element is cut to 32 bits on its way out. */
    method TryRecv(out: int) returns (rc: Outcome, out': int)
      requires Valid()
      modifies this`head, this`len
      ensures Valid() && rc == TryOutcome(old(View())) && View() == Taken(old(View()))
      ensures out' == if rc == Ok then I32(old(View()).items[0]) else out
    {
      if len == 0 {
        rc := if closed then Closed else Empty;
        return rc, out;
      }
      var v := Take();
      return Ok, I32(v);
    }

    method Close()
      requires Valid()
      modifies this`closed
      ensures Valid() && View() == old(View()).(closed := true)
    {
      closed := true;
    }
  }
}
