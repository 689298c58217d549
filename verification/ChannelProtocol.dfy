/** Any number of threads on one channel, as atomic steps: each pass through the lock is one step.
    A wait puts the thread to sleep; a signal wakes at least one sleeper if there is one, a broadcast
    wakes all, and a sleeper may wake spuriously (POSIX.1-2017, pthread_cond_wait). */
module ChannelProtocol {
  import opened Channel

  type Tid = nat

  /** Where a thread inside the channel is: about to take the lock for the first time (Call), asleep on
      its condition variable, or awake again and about to retake the lock (Woken). */
  datatype Phase =
    | CallSend(v: int) | SleepSend(v: int) | WokenSend(v: int)
    | CallRecv | SleepRecv | WokenRecv
    | CallTry | CallClose

  /** What a pass that ends a call did. */
  datatype Event =
    | ESend(v: int) | ESendClosed
    | ERecv(v: int) | ERecvClosed
    | ETry(v: int) | ETryEmpty | ETryClosed
    | EClose

  datatype Sys = Sys(q: Queue, thr: map<Tid, Phase>, log: seq<Event>)

  datatype Step =
    | Invoke(t: Tid, call: Phase)
    | Run(t: Tid, woken: set<Tid>)
    | Spurious(t: Tid)

  predicate Asleep(p: Phase) { p.SleepSend? || p.SleepRecv? }
  predicate IsCall(p: Phase) { p.CallSend? || p.CallRecv? || p.CallTry? || p.CallClose? }
  predicate IsSend(p: Phase) { p.CallSend? || p.SleepSend? || p.WokenSend? }
  predicate IsRecv(p: Phase) { p.CallRecv? || p.SleepRecv? || p.WokenRecv? }

  datatype Kind = Calling | SleepingSender | SleepingReceiver | WokenSender | WokenReceiver

  function KindOf(p: Phase): Kind {
    match p
    case SleepSend(_) => SleepingSender
    case SleepRecv => SleepingReceiver
    case WokenSend(_) => WokenSender
    case WokenRecv => WokenReceiver
    case _ => Calling
  }

  function Those(thr: map<Tid, Phase>, k: Kind): set<Tid> { set t | t in thr && KindOf(thr[t]) == k }

  function OutcomeOf(q: Queue, p: Phase): Outcome {
    if IsSend(p) then SendOutcome(q) else if IsRecv(p) then RecvOutcome(q)
    else if p.CallTry? then TryOutcome(q) else Ok
  }

  /** The threads a pass may wake: senders signal not_empty, receivers signal not_full. */
  predicate WakeAllowed(s: Sys, p: Phase, woken: set<Tid>) {
    if p.CallClose? then woken == Those(s.thr, SleepingSender) + Those(s.thr, SleepingReceiver)
    else if OutcomeOf(s.q, p) == Ok then
      var sleepers := if IsSend(p) then Those(s.thr, SleepingReceiver) else Those(s.thr, SleepingSender);
      woken <= sleepers && (sleepers != {} ==> woken != {})
    else woken == {}
  }

  predicate Enabled(s: Sys, step: Step) {
    match step
    case Invoke(t, call) => t !in s.thr && IsCall(call)
    case Run(t, woken) => t in s.thr && !Asleep(s.thr[t]) && WakeAllowed(s, s.thr[t], woken)
    case Spurious(t) => t in s.thr && Asleep(s.thr[t])
  }

  function Awaken(p: Phase): Phase {
    match p
    case SleepSend(v) => WokenSend(v)
    case SleepRecv => WokenRecv
    case _ => p
  }

  function Wake(thr: map<Tid, Phase>, woken: set<Tid>): map<Tid, Phase> {
    map t | t in thr :: if t in woken then Awaken(thr[t]) else thr[t]
  }

  /** The queue after the pass of a thread in phase p. */
  function Effect(q: Queue, p: Phase): Queue {
    if IsSend(p) then Sent(q, p.v) else if p.CallClose? then q.(closed := true) else Taken(q)
  }

  function EventOf(q: Queue, p: Phase): Event
    requires OutcomeOf(q, p) != Wait
  {
    var o := OutcomeOf(q, p);
    if IsSend(p) then (if o == Ok then ESend(p.v) else ESendClosed)
    else if IsRecv(p) then (if o == Ok then ERecv(q.items[0]) else ERecvClosed)
    else if p.CallTry? then (if o == Ok then ETry(q.items[0]) else if o == Closed then ETryClosed else ETryEmpty)
    else EClose
  }

  function Apply(s: Sys, step: Step): Sys
    requires Enabled(s, step)
  {
    match step
    case Invoke(t, call) => s.(thr := s.thr[t := call])
    case Spurious(t) => s.(thr := s.thr[t := Awaken(s.thr[t])])
    case Run(t, woken) =>
      var p := s.thr[t];
      if OutcomeOf(s.q, p) == Wait then
        s.(thr := s.thr[t := if IsSend(p) then SleepSend(p.v) else SleepRecv])
      else
        Sys(Effect(s.q, p), Wake(s.thr, woken) - {t}, s.log + [EventOf(s.q, p)])
  }

  function Start(cap: nat): Sys { Sys(Queue([], cap, false), map[], []) }

  /** The states of a run from a fresh channel, one per step. */
  ghost predicate IsRun(cap: nat, states: seq<Sys>, steps: seq<Step>) {
    && |states| == |steps| + 1 && states[0] == Start(cap)
    && forall i :: 0 <= i < |steps| ==> Enabled(states[i], steps[i]) && states[i + 1] == Apply(states[i], steps[i])
  }

  // ---- no lost wakeup ----

  ghost predicate NoLostWakeup(s: Sys) {
    && (Those(s.thr, SleepingReceiver) != {} ==> |Those(s.thr, WokenReceiver)| >= |s.q.items| && !s.q.closed)
    && (Those(s.thr, SleepingSender) != {} ==> |Those(s.thr, WokenSender)| >= s.q.cap - |s.q.items| && !s.q.closed)
  }

  predicate Pair(sleeping: Kind, awake: Kind) {
    (sleeping == SleepingSender && awake == WokenSender) || (sleeping == SleepingReceiver && awake == WokenReceiver)
  }

  lemma WakeSets(thr: map<Tid, Phase>, woken: set<Tid>, sleeping: Kind, awake: Kind)
    requires Pair(sleeping, awake)
    ensures Those(Wake(thr, woken), sleeping) == Those(thr, sleeping) - woken
    ensures Those(Wake(thr, woken), awake) == Those(thr, awake) + woken * Those(thr, sleeping)
    ensures Those(thr, awake) !! woken * Those(thr, sleeping)
  {
  }

  /** Who sleeps and how many are awake after a wakeup. */
  lemma WakeCounts(thr: map<Tid, Phase>, woken: set<Tid>, sleeping: Kind, awake: Kind)
    requires Pair(sleeping, awake)
    ensures Those(Wake(thr, woken), sleeping) == Those(thr, sleeping) - woken
    ensures |Those(Wake(thr, woken), awake)| == |Those(thr, awake)| + |woken * Those(thr, sleeping)|
  {
    hide Those, Wake;
    WakeSets(thr, woken, sleeping, awake);
    DisjointUnion(Those(thr, awake), woken * Those(thr, sleeping));
  }

  lemma DisjointUnion(a: set<Tid>, b: set<Tid>)
    requires a !! b
    ensures |a + b| == |a| + |b|
  {
  }

  /** A thread that leaves its kind is one less there, and changes no other kind but the one it enters. */
  lemma LeaveCounts(thr: map<Tid, Phase>, t: Tid, k: Kind)
    requires t in thr
    ensures Those(thr - {t}, k) == Those(thr, k) - {t}
    ensures |Those(thr - {t}, k)| == |Those(thr, k)| - (if KindOf(thr[t]) == k then 1 else 0)
  {
    if KindOf(thr[t]) != k { assert Those(thr, k) - {t} == Those(thr, k); }
  }

  lemma LeaveAll(thr: map<Tid, Phase>, t: Tid)
    requires t in thr && !Asleep(thr[t])
    ensures Those(thr - {t}, SleepingSender) == Those(thr, SleepingSender)
    ensures Those(thr - {t}, SleepingReceiver) == Those(thr, SleepingReceiver)
    ensures |Those(thr - {t}, WokenSender)| == |Those(thr, WokenSender)| - (if thr[t].WokenSend? then 1 else 0)
    ensures |Those(thr - {t}, WokenReceiver)| == |Those(thr, WokenReceiver)| - (if thr[t].WokenRecv? then 1 else 0)
  {
    LeaveCounts(thr, t, WokenSender);
    LeaveCounts(thr, t, WokenReceiver);
  }

  lemma EnterAll(thr: map<Tid, Phase>, t: Tid, p: Phase)
    requires t in thr ==> !Asleep(thr[t])
    requires KindOf(p) == Calling || Asleep(p)
    ensures Those(thr[t := p], SleepingSender) == Those(thr, SleepingSender) + (if p.SleepSend? then {t} else {})
    ensures Those(thr[t := p], SleepingReceiver) == Those(thr, SleepingReceiver) + (if p.SleepRecv? then {t} else {})
    ensures Those(thr[t := p], WokenSender) == Those(thr - {t}, WokenSender)
    ensures Those(thr[t := p], WokenReceiver) == Those(thr - {t}, WokenReceiver)
  {
  }

  lemma SomeWoken(woken: set<Tid>, sleepers: set<Tid>)
    requires woken <= sleepers && (sleepers != {} ==> woken != {})
    ensures sleepers != {} ==> |woken * sleepers| >= 1
  {
    assert woken * sleepers == woken;
  }

  lemma WaitKeepsWakeups(s: Sys, t: Tid)
    requires WfQueue(s.q) && NoLostWakeup(s) && Enabled(s, Run(t, {})) && OutcomeOf(s.q, s.thr[t]) == Wait
    ensures NoLostWakeup(Apply(s, Run(t, {})))
  {
    hide Those;
    var p := if IsSend(s.thr[t]) then SleepSend(s.thr[t].v) else SleepRecv;
    LeaveCounts(s.thr, t, WokenSender);
    LeaveCounts(s.thr, t, WokenReceiver);
    EnterAll(s.thr, t, p);
  }

  lemma ReturnKeepsWakeups(s: Sys, t: Tid, woken: set<Tid>)
    requires WfQueue(s.q) && NoLostWakeup(s) && Enabled(s, Run(t, woken)) && OutcomeOf(s.q, s.thr[t]) != Wait
    ensures NoLostWakeup(Apply(s, Run(t, woken)))
  {
    hide Those, Wake;
    var p := s.thr[t];
    var mid := Wake(s.thr, woken);
    WakeCounts(s.thr, woken, SleepingSender, WokenSender);
    WakeCounts(s.thr, woken, SleepingReceiver, WokenReceiver);
    WakeLeaves(s.thr, woken, t);
    LeaveAll(mid, t);
    if !p.CallClose? && OutcomeOf(s.q, p) == Ok {
      SomeWoken(woken, Those(s.thr, if IsSend(p) then SleepingReceiver else SleepingSender));
    }
  }

  lemma WakeLeaves(thr: map<Tid, Phase>, woken: set<Tid>, t: Tid)
    requires t in thr && !Asleep(thr[t])
    ensures t in Wake(thr, woken) && Wake(thr, woken)[t] == thr[t]
  {
  }

  lemma InvokeKeepsWakeups(s: Sys, t: Tid, call: Phase)
    requires NoLostWakeup(s) && Enabled(s, Invoke(t, call))
    ensures NoLostWakeup(Apply(s, Invoke(t, call)))
  {
    hide Those;
    EnterAll(s.thr, t, call);
    assert s.thr - {t} == s.thr;
  }

  lemma SpuriousKeepsWakeups(s: Sys, t: Tid)
    requires NoLostWakeup(s) && Enabled(s, Spurious(t))
    ensures NoLostWakeup(Apply(s, Spurious(t)))
  {
    hide Those;
    assert Wake(s.thr, {t}) == s.thr[t := Awaken(s.thr[t])];
    WakeCounts(s.thr, {t}, SleepingSender, WokenSender);
    WakeCounts(s.thr, {t}, SleepingReceiver, WokenReceiver);
  }

  // ---- the log as a history of one sequential queue ----

  /** Whether a queue may answer a call with this event, and what it then is. */
  predicate Legal(q: Queue, e: Event) {
    match e
    case ESend(_) => !q.closed && |q.items| < q.cap
    case ESendClosed => q.closed
    case ERecv(v) => q.items != [] && v == q.items[0]
    case ETry(v) => q.items != [] && v == q.items[0]
    case ERecvClosed => q.items == [] && q.closed
    case ETryClosed => q.items == [] && q.closed
    case ETryEmpty => q.items == [] && !q.closed
    case EClose => true
  }

  function After(q: Queue, e: Event): Queue {
    match e
    case ESend(v) => q.(items := q.items + [v])
    case ERecv(_) => Taken(q)
    case ETry(_) => Taken(q)
    case EClose => q.(closed := true)
    case _ => q
  }

  /** The queue after a whole history that starts from q. */
  function Replay(q: Queue, log: seq<Event>): Queue {
    if log == [] then q else After(Replay(q, log[..|log| - 1]), log[|log| - 1])
  }

  /** The log is a legal history of a sequential bounded queue that starts from q. */
  predicate LegalLog(q: Queue, log: seq<Event>) {
    log == [] || (LegalLog(q, log[..|log| - 1]) && Legal(Replay(q, log[..|log| - 1]), log[|log| - 1]))
  }

  function Fresh(cap: nat): Queue { Queue([], cap, false) }

  ghost predicate Inv(cap: nat, s: Sys) {
    WfQueue(s.q) && s.q.cap == cap && NoLostWakeup(s) && LegalLog(Fresh(cap), s.log) && s.q == Replay(Fresh(cap), s.log)
  }

  lemma EventIsLegal(q: Queue, p: Phase)
    requires WfQueue(q) && OutcomeOf(q, p) != Wait && !Asleep(p)
    ensures Legal(q, EventOf(q, p)) && Effect(q, p) == After(q, EventOf(q, p)) && WfQueue(Effect(q, p))
  {
  }

  lemma StepKeepsInv(cap: nat, s: Sys, step: Step)
    requires Inv(cap, s) && Enabled(s, step)
    ensures Inv(cap, Apply(s, step))
  {
    hide NoLostWakeup;
    match step
    case Invoke(t, call) => InvokeKeepsWakeups(s, t, call);
    case Spurious(t) => SpuriousKeepsWakeups(s, t);
    case Run(t, woken) =>
      var p := s.thr[t];
      if OutcomeOf(s.q, p) == Wait {
        WaitKeepsWakeups(s, t);
      } else {
        ReturnKeepsWakeups(s, t, woken);
        EventIsLegal(s.q, p);
        var log' := s.log + [EventOf(s.q, p)];
        assert log'[..|log'| - 1] == s.log;
      }
  }

  /** Every state of every run: no wakeup is lost, and the calls so far are linearized in lock order. */
  lemma {:induction false} RunsKeepInv(cap: nat, states: seq<Sys>, steps: seq<Step>, i: nat)
    requires cap >= 1 && IsRun(cap, states, steps) && i < |states|
    ensures Inv(cap, states[i])
  {
    if i > 0 {
      RunsKeepInv(cap, states, steps, i - 1);
      StepKeepsInv(cap, states[i - 1], steps[i - 1]);
    }
  }

  // ---- what every run promises ----

  /** Whenever every thread in the channel sleeps, they all wait for the same good reason: receivers on
      an empty open channel, or senders on a full open one. */
  lemma SleepersHaveReason(cap: nat, s: Sys)
    requires cap >= 1 && Inv(cap, s) && s.thr != map[] && forall t :: t in s.thr ==> Asleep(s.thr[t])
    ensures !s.q.closed
    ensures (|s.q.items| == 0 && forall t :: t in s.thr ==> s.thr[t].SleepRecv?)
         || (|s.q.items| == cap && forall t :: t in s.thr ==> s.thr[t].SleepSend?)
  {
    assert Those(s.thr, WokenReceiver) == {} && Those(s.thr, WokenSender) == {};
    forall t | t in s.thr
      ensures if s.thr[t].SleepRecv? then t in Those(s.thr, SleepingReceiver) else t in Those(s.thr, SleepingSender)
    {
    }
    var t :| t in s.thr;
    assert Those(s.thr, SleepingReceiver) != {} || Those(s.thr, SleepingSender) != {};
  }

  /** In particular on every state of every run. */
  lemma NoLostWakeupOnAnyRun(cap: nat, states: seq<Sys>, steps: seq<Step>, i: nat)
    requires cap >= 1 && IsRun(cap, states, steps) && i < |states|
    ensures NoLostWakeup(states[i]) && |states[i].q.items| <= cap
    ensures var s := states[i];
            (forall t :: t in s.thr ==> Asleep(s.thr[t])) && s.thr != map[] ==>
              && !s.q.closed
              && ((|s.q.items| == 0 && forall t :: t in s.thr ==> s.thr[t].SleepRecv?)
                || (|s.q.items| == cap && forall t :: t in s.thr ==> s.thr[t].SleepSend?))
  {
    RunsKeepInv(cap, states, steps, i);
    var s := states[i];
    if (forall t :: t in s.thr ==> Asleep(s.thr[t])) && s.thr != map[] {
      SleepersHaveReason(cap, s);
    }
  }

  function SendsOf(e: Event): seq<int> { if e.ESend? then [e.v] else [] }
  function ReceiptsOf(e: Event): seq<int> { if e.ERecv? || e.ETry? then [e.v] else [] }

  function Sends(log: seq<Event>): seq<int> {
    if log == [] then [] else Sends(log[..|log| - 1]) + SendsOf(log[|log| - 1])
  }

  function Receipts(log: seq<Event>): seq<int> {
    if log == [] then [] else Receipts(log[..|log| - 1]) + ReceiptsOf(log[|log| - 1])
  }

  lemma FifoStep(a: seq<int>, s: seq<int>, r: seq<int>, q: Queue, e: Event)
    requires a + s == r + q.items && Legal(q, e)
    ensures a + (s + SendsOf(e)) == (r + ReceiptsOf(e)) + After(q, e).items
  {
    assert a + (s + SendsOf(e)) == (a + s) + SendsOf(e);
    if e.ERecv? || e.ETry? { assert q.items == [e.v] + q.items[1..]; }
  }

  /** First in, first out, nothing lost: what was sent is what was received and then what is buffered. */
  lemma {:induction false} Fifo(q: Queue, log: seq<Event>)
    requires LegalLog(q, log)
    ensures q.items + Sends(log) == Receipts(log) + Replay(q, log).items
    ensures Replay(q, log).cap == q.cap && (WfQueue(q) ==> WfQueue(Replay(q, log)))
  {
    hide SendsOf, ReceiptsOf;
    if log == [] {
      assert q.items + [] == [] + q.items;
    } else {
      var init := log[..|log| - 1];
      Fifo(q, init);
      FifoStep(q.items, Sends(init), Receipts(init), Replay(q, init), log[|log| - 1]);
    }
  }

  lemma {:induction false} Prefix(q: Queue, log: seq<Event>, i: nat)
    requires LegalLog(q, log) && i < |log|
    ensures LegalLog(q, log[..i]) && Legal(Replay(q, log[..i]), log[i])
    ensures Replay(q, log[..i + 1]) == After(Replay(q, log[..i]), log[i])
  {
    var init := log[..|log| - 1];
    if i < |init| {
      Prefix(q, init, i);
      assert init[..i] == log[..i] && init[..i + 1] == log[..i + 1];
    } else {
      assert log[..i + 1] == log;
    }
  }

  /** Once closed, a queue stays closed and never grows again. */
  lemma {:induction false} ClosedStays(q: Queue, log: seq<Event>, i: nat, j: nat)
    requires LegalLog(q, log) && i <= j <= |log| && Replay(q, log[..i]).closed
    ensures Replay(q, log[..j]).closed && |Replay(q, log[..j]).items| <= |Replay(q, log[..i]).items|
    decreases j
  {
    if i < j {
      ClosedStays(q, log, i, j - 1);
      Prefix(q, log, j - 1);
    }
  }

  /** No send succeeds behind a close, in lock order. */
  lemma NoSendAfterClose(q: Queue, log: seq<Event>, i: nat, j: nat)
    requires LegalLog(q, log) && i < j < |log| && log[i].EClose?
    ensures !log[j].ESend?
  {
    Prefix(q, log, i);
    ClosedStays(q, log, i + 1, j);
    Prefix(q, log, j);
  }

  predicate SaysClosed(e: Event) { e.ERecvClosed? || e.ETryClosed? }

  lemma {:induction false} ClosedByClose(q: Queue, log: seq<Event>)
    requires LegalLog(q, log)
    ensures Replay(q, log).closed <==> q.closed || EClose in log
  {
    if log != [] {
      ClosedByClose(q, log[..|log| - 1]);
      assert log == log[..|log| - 1] + [log[|log| - 1]];
    }
  }

  /** Lossless close: a receive says CLOSED only behind a close, when everything ever sent has been
      received; and from then on no receive returns an element and no send succeeds. */
  lemma ClosedMeansDrained(q: Queue, log: seq<Event>, i: nat)
    requires LegalLog(q, log) && i < |log| && SaysClosed(log[i])
    ensures (q.closed || EClose in log[..i]) && q.items + Sends(log[..i]) == Receipts(log[..i])
    ensures forall j :: i < j < |log| ==> !log[j].ESend? && !log[j].ERecv? && !log[j].ETry? && !log[j].ETryEmpty?
  {
    Prefix(q, log, i);
    Fifo(q, log[..i]);
    ClosedByClose(q, log[..i]);
    forall j | i < j < |log|
      ensures !log[j].ESend? && !log[j].ERecv? && !log[j].ETry? && !log[j].ETryEmpty?
    {
      ClosedStays(q, log, i, j);
      Prefix(q, log, j);
    }
  }

  /** The whole promise for a run: at every state the calls so far are a legal sequential history of a
      bounded queue, in which nothing is lost, reordered or duplicated. */
  lemma RunIsLinearizable(cap: nat, states: seq<Sys>, steps: seq<Step>, i: nat)
    requires cap >= 1 && IsRun(cap, states, steps) && i < |states|
    ensures var s := states[i];
            && LegalLog(Fresh(cap), s.log) && s.q == Replay(Fresh(cap), s.log)
            && Sends(s.log) == Receipts(s.log) + s.q.items
  {
    RunsKeepInv(cap, states, steps, i);
    Fifo(Fresh(cap), states[i].log);
  }

  // ---- real-time order ----

  /** The step ends a call, and logs its event. */
  predicate Returns(s: Sys, step: Step) {
    step.Run? && step.t in s.thr && OutcomeOf(s.q, s.thr[step.t]) != Wait
  }

  /** The call that a thread in this phase has made. */
  function CallOf(p: Phase): Phase {
    match p
    case SleepSend(v) => CallSend(v)
    case WokenSend(v) => CallSend(v)
    case SleepRecv => CallRecv
    case WokenRecv => CallRecv
    case _ => p
  }

  predicate Answers(call: Phase, e: Event) {
    match call
    case CallSend(v) => e == ESend(v) || e.ESendClosed?
    case CallRecv => e.ERecv? || e.ERecvClosed?
    case CallTry => e.ETry? || e.ETryEmpty? || e.ETryClosed?
    case CallClose => e.EClose?
    case _ => false
  }

  lemma {:induction false} LogGrows(cap: nat, states: seq<Sys>, steps: seq<Step>, i: nat, j: nat)
    requires IsRun(cap, states, steps) && i <= j < |states|
    ensures states[i].log <= states[j].log
    decreases j
  {
    if i < j { LogGrows(cap, states, steps, i, j - 1); }
  }

  lemma ReturnIsLogged(cap: nat, states: seq<Sys>, steps: seq<Step>, i: nat, n: nat)
    requires IsRun(cap, states, steps) && i < n < |states| && Returns(states[i], steps[i])
    ensures var s := states[i];
            |s.log| < |states[n].log| && states[n].log[|s.log|] == EventOf(s.q, s.thr[steps[i].t])
    ensures states[i + 1].log == states[i].log + [EventOf(states[i].q, states[i].thr[steps[i].t])]
  {
    LogGrows(cap, states, steps, i + 1, n);
  }

  lemma StepKeepsCall(s: Sys, step: Step, t: Tid)
    requires Enabled(s, step) && t in s.thr && !(Returns(s, step) && step.t == t)
    ensures t in Apply(s, step).thr && CallOf(Apply(s, step).thr[t]) == CallOf(s.thr[t])
  {
    hide WakeAllowed, EventOf, Effect;
  }

  /** From its invocation until it returns, a thread stays in the channel with the same call. */
  lemma {:induction false} CallIsKept(cap: nat, states: seq<Sys>, steps: seq<Step>, m: nat, j: nat, t: Tid, call: Phase)
    requires IsRun(cap, states, steps) && m < j < |states| && steps[m] == Invoke(t, call)
    requires forall i :: m < i < j ==> !(Returns(states[i], steps[i]) && steps[i].t == t)
    ensures t in states[j].thr && CallOf(states[j].thr[t]) == call
    decreases j
  {
    hide OutcomeOf, WakeAllowed, CallOf;
    assert Enabled(states[j - 1], steps[j - 1]) && states[j] == Apply(states[j - 1], steps[j - 1]);
    if m + 1 < j {
      CallIsKept(cap, states, steps, m, j - 1, t, call);
      StepKeepsCall(states[j - 1], steps[j - 1], t);
    } else {
      CallOfCall(call);
    }
  }

  /** A call whose invocation comes after another call has returned stands behind it in the log, with the
      event that answers it: the linearization keeps real-time order, on every run. */
  lemma RealTimeOrder(cap: nat, states: seq<Sys>, steps: seq<Step>, i: nat, m: nat, j: nat, t: Tid, call: Phase)
    requires IsRun(cap, states, steps) && i < m < j < |steps|
    requires Returns(states[i], steps[i]) && steps[m] == Invoke(t, call)
    requires Returns(states[j], steps[j]) && steps[j].t == t
    requires forall k :: m < k < j ==> !(Returns(states[k], steps[k]) && steps[k].t == t)
    ensures var log, p, q := states[|steps|].log, |states[i].log|, |states[j].log|;
            && p < q < |log| && log[p] == EventOf(states[i].q, states[i].thr[steps[i].t])
            && log[q] == EventOf(states[j].q, states[j].thr[t]) && Answers(call, log[q])
  {
    hide OutcomeOf, EventOf, Answers;
    ReturnIsLogged(cap, states, steps, i, |steps|);
    ReturnIsLogged(cap, states, steps, j, |steps|);
    LogGrows(cap, states, steps, i + 1, j);
    CallIsKept(cap, states, steps, m, j, t, call);
    assert Enabled(states[j], steps[j]);
    EventAnswers(states[j].q, states[j].thr[t], call);
  }

  lemma CallOfCall(call: Phase)
    requires IsCall(call)
    ensures CallOf(call) == call
  {
  }

  lemma EventAnswers(q: Queue, p: Phase, call: Phase)
    requires CallOf(p) == call && IsCall(call) && OutcomeOf(q, p) != Wait
    ensures Answers(call, EventOf(q, p))
  {
  }
}
