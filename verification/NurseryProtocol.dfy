/** One owner that spawns, joins, shuts down and destroys a nursery, and the running tasks, which may
    themselves spawn into it and cancel it while a join has dropped the lock. */
module NurseryProtocol {
  import opened Nursery

  datatype Op = JoinAll | JoinTimed | Shutdown | Destroy

  /** Where the owner is: between calls; waiting unlocked for slot i's thread; in shutdown, having
      requested cancel and about to enter join_all, or having joined all and about to mark the nursery
      dead. */
  datatype Owner = Idle | Waiting(op: Op, i: nat) | Cancelling(op: Op) | Joined(op: Op)

  datatype Answer = Answer(op: Op, rc: Rc)

  /** finished says which threads have ended; joins lists the slots in the order they were joined. */
  datatype Sys = Sys(v: View, finished: seq<bool>, pc: Owner, joins: seq<nat>, answers: seq<Answer>, freed: bool)

  datatype Step =
    | OwnerSpawn(created: bool)
    | OwnerCancel
    | OwnerCall(op: Op)
    | OwnerStep
    | OwnerTimesOut(rc: Rc)
    | TaskSpawn(t: nat, created: bool)
    | TaskCancel(t: nat)
    | TaskFinish(t: nat)

  predicate Ended(s: Sys, t: nat) { t < |s.finished| && s.finished[t] }
  predicate Running(s: Sys, t: nat) { t < |s.finished| && !s.finished[t] }

  predicate Enabled(s: Sys, step: Step) {
    !s.freed &&
    match step
    case OwnerSpawn(_) => s.pc.Idle?
    case OwnerCancel => s.pc.Idle?
    case OwnerCall(_) => s.pc.Idle?
    case OwnerStep => !s.pc.Idle? && (s.pc.Waiting? ==> s.pc.i < |s.v.joined| && Ended(s, s.pc.i))
    case OwnerTimesOut(rc) => s.pc.Waiting? && s.pc.op == JoinTimed && (rc == Timeout || rc == Err)
    case TaskSpawn(t, _) => Running(s, t)
    case TaskCancel(t) => Running(s, t)
    case TaskFinish(t) => Running(s, t)
  }

  function Spawn(s: Sys, created: bool): Sys {
    if SpawnRc(s.v, created) == Rc.Ok then s.(v := Spawned(s.v, created), finished := s.finished + [false]) else s
  }

  /** A call returns; destroy frees the nursery instead. */
  function Ends(s: Sys, op: Op, rc: Rc): Sys {
    s.(pc := Idle, answers := s.answers + [Answer(op, rc)], freed := op == Destroy)
  }

  /** The join loop under the lock, from slot i on: wait for the next pending slot, or come to an end. */
  function JoinFrom(s: Sys, op: Op, i: nat): Sys
    requires i <= |s.v.joined|
  {
    var k := NextPending(s.v.joined, i);
    if k < |s.v.joined| then s.(pc := Waiting(op, k))
    else if op == Shutdown || op == Destroy then s.(pc := Joined(op))
    else Ends(s, op, Rc.Ok)
  }

  /** Entering a join or a shutdown. */
  function Call(s: Sys, op: Op): Sys {
    if !s.v.live then Ends(s, op, Dead)
    else if op == Shutdown || op == Destroy then s.(v := Cancelled(s.v), pc := Cancelling(op))
    else JoinFrom(s, op, 0)
  }

  function Apply(s: Sys, step: Step): Sys
    requires Enabled(s, step)
  {
    match step
    case OwnerSpawn(created) => Spawn(s, created)
    case OwnerCancel => s.(v := Cancelled(s.v))
    case OwnerCall(op) => Call(s, op)
    case OwnerStep =>
      (match s.pc
       case Waiting(op, i) =>
         JoinFrom(s.(v := s.v.(joined := s.v.joined[i := true]), joins := s.joins + [i]), op, i + 1)
       case Cancelling(op) => if s.v.live then JoinFrom(s, op, 0) else Ends(s, op, Dead)
       case Joined(op) => Ends(s.(v := s.v.(live := false)), op, Rc.Ok)
       case Idle => s)
    case OwnerTimesOut(rc) => Ends(s, JoinTimed, rc)
    case TaskSpawn(_, created) => Spawn(s, created)
    case TaskCancel(_) => s.(v := Cancelled(s.v))
    case TaskFinish(t) => s.(finished := s.finished[t := true])
  }

  function Start(cap: nat): Sys { Sys(View(true, false, cap, []), [], Idle, [], [], false) }

  /** The states of a run from a fresh nursery, one per step. */
  ghost predicate IsRun(cap: nat, states: seq<Sys>, steps: seq<Step>) {
    && |states| == |steps| + 1 && states[0] == Start(cap)
    && forall i :: 0 <= i < |steps| ==> Enabled(states[i], steps[i]) && states[i + 1] == Apply(states[i], steps[i])
  }

  /** Every spawned task has ended and been joined. */
  predicate Quiescent(s: Sys) {
    && (forall j :: 0 <= j < |s.v.joined| ==> s.v.joined[j])
    && (forall j :: 0 <= j < |s.finished| ==> s.finished[j])
  }

  ghost predicate Inv(s: Sys) {
    var n, k := |s.v.joined|, |s.joins|;
    && |s.finished| == n <= s.v.cap && k <= n
    // the joined slots are a prefix, each joined once and in order
    && (forall j :: 0 <= j < k ==> s.joins[j] == j && s.v.joined[j] && s.finished[j])
    && (forall j :: k <= j < n ==> !s.v.joined[j])
    && (s.pc.Waiting? ==> s.v.live && s.pc.i == k < n)
    && (!s.pc.Idle? && (s.pc.op == Shutdown || s.pc.op == Destroy) ==> s.v.cancel)
    && (s.pc.Cancelling? ==> s.v.live && (s.pc.op == Shutdown || s.pc.op == Destroy))
    && (s.pc.Joined? ==> s.v.live && k == n && (s.pc.op == Shutdown || s.pc.op == Destroy))
    && (!s.v.live || s.freed ==> Quiescent(s)) && (s.freed ==> s.pc.Idle?)
  }

  lemma NextIsPrefix(s: Sys, i: nat)
    requires Inv(s) && i <= |s.joins|
    ensures NextPending(s.v.joined, i) == |s.joins|
  {
    assert forall j :: 0 <= j < |s.joins| ==> s.joins[j] == j && s.v.joined[j];
    assert |s.joins| < |s.v.joined| ==> !s.v.joined[|s.joins|];
  }

  lemma SpawnKeepsInv(s: Sys, created: bool)
    requires Inv(s) && !s.freed && !s.pc.Joined?
    ensures Inv(Spawn(s, created))
  {
  }

  lemma WaitedKeepsInv(s: Sys)
    requires Inv(s) && Enabled(s, OwnerStep) && s.pc.Waiting?
    ensures Inv(Apply(s, OwnerStep))
  {
    var i := s.pc.i;
    var s1 := s.(v := s.v.(joined := s.v.joined[i := true]), joins := s.joins + [i]);
    assert Inv(s1.(pc := Idle));
    NextIsPrefix(s1.(pc := Idle), i + 1);
  }

  lemma StepKeepsInv(s: Sys, step: Step)
    requires Inv(s) && Enabled(s, step)
    ensures Inv(Apply(s, step))
  {
    match step
    case OwnerSpawn(created) => SpawnKeepsInv(s, created);
    case TaskSpawn(t, created) => SpawnKeepsInv(s, created);
    case OwnerCall(op) => NextIsPrefix(s, 0);
    case OwnerStep =>
      if s.pc.Waiting? { WaitedKeepsInv(s); } else { NextIsPrefix(s, 0); }
    case _ =>
  }

  lemma {:induction false} RunsKeepInv(cap: nat, states: seq<Sys>, steps: seq<Step>, i: nat)
    requires IsRun(cap, states, steps) && i < |states|
    ensures Inv(states[i])
  {
    if i > 0 {
      RunsKeepInv(cap, states, steps, i - 1);
      StepKeepsInv(states[i - 1], steps[i - 1]);
    }
  }

  // ---- what every run promises ----

  /** What a call answers: DEAD exactly if the nursery was dead; TIMEOUT or ERR only from a timed join that gives
      up; and OK in every other case. A shutdown that answers OK has requested cancel and left it dead. */
  lemma AnswersOfRun(cap: nat, states: seq<Sys>, steps: seq<Step>, i: nat, op: Op, rc: Rc)
    requires IsRun(cap, states, steps) && i < |steps|
    requires states[i + 1].answers == states[i].answers + [Answer(op, rc)]
    ensures rc == Dead <==> !states[i].v.live
    ensures rc == Timeout || rc == Err <==> steps[i].OwnerTimesOut?
    ensures steps[i].OwnerTimesOut? ==> op == JoinTimed && rc == steps[i].rc
    ensures rc == Rc.Ok <==> states[i].v.live && !steps[i].OwnerTimesOut?
    ensures (op == Shutdown || op == Destroy) && rc == Rc.Ok ==> !states[i + 1].v.live && states[i + 1].v.cancel
  {
    RunsKeepInv(cap, states, steps, i);
    AnswerOfStep(states[i], steps[i], op, rc);
  }

  lemma AnswerOfStep(s: Sys, step: Step, op: Op, rc: Rc)
    requires Inv(s) && Enabled(s, step) && Apply(s, step).answers == s.answers + [Answer(op, rc)]
    ensures rc == Dead <==> !s.v.live
    ensures rc == Timeout || rc == Err <==> step.OwnerTimesOut?
    ensures step.OwnerTimesOut? ==> op == JoinTimed && rc == step.rc
    ensures rc == Rc.Ok <==> s.v.live && !step.OwnerTimesOut?
    ensures (op == Shutdown || op == Destroy) && rc == Rc.Ok ==> !Apply(s, step).v.live && Apply(s, step).v.cancel
  {
    hide PendingCount, NextPending;
    assert Apply(s, step).answers[|s.answers|] == Answer(op, rc);
  }

  /** When a call is over: a join on a live nursery is, once it finds no slot to wait for, and it answers then and
      there; a shutdown goes on to mark the nursery dead, and then answers. */
  lemma CallsReturn(cap: nat, states: seq<Sys>, steps: seq<Step>, i: nat)
    requires IsRun(cap, states, steps) && i < |steps|
    ensures var s, s' := states[i], states[i + 1];
            s.pc.Waiting? && steps[i].OwnerStep? && !s'.pc.Waiting? ==>
              if s.pc.op == JoinAll || s.pc.op == JoinTimed then s'.answers == s.answers + [Answer(s.pc.op, Rc.Ok)]
              else s'.pc == Joined(s.pc.op)
    ensures var s, s' := states[i], states[i + 1];
            s.pc.Joined? && steps[i].OwnerStep? ==> s'.answers == s.answers + [Answer(s.pc.op, Rc.Ok)]
    ensures var s, s' := states[i], states[i + 1];
            steps[i].OwnerCall? && s'.pc.Idle? ==>
              s'.answers == s.answers + [Answer(steps[i].op, if s.v.live then Rc.Ok else Dead)]
  {
    RunsKeepInv(cap, states, steps, i);
  }

  /** What a step changes: cancel is set by a request, or a shutdown that begins, on a live nursery; the nursery
      dies at the end of a shutdown; a slot is added by a spawn that finds the nursery live, a free slot and a
      thread; and a slot's flags change only when its thread ends or the owner has joined it. */
  lemma StepEffects(cap: nat, states: seq<Sys>, steps: seq<Step>, i: nat)
    requires IsRun(cap, states, steps) && i < |steps|
    ensures var s, s', step := states[i], states[i + 1], steps[i];
            var shuts := step == OwnerCall(Shutdown) || step == OwnerCall(Destroy);
            && (s'.v.cancel <==> s.v.cancel || (s.v.live && (step.OwnerCancel? || step.TaskCancel? || shuts)))
            && (s'.v.live <==> s.v.live && !(step.OwnerStep? && s.pc.Joined?))
            && (s'.freed <==> (step == OwnerCall(Destroy) && !s.v.live) || (step.OwnerStep? && s.pc == Joined(Destroy)))
    ensures var s, s', step := states[i], states[i + 1], steps[i];
            var adds := (step.OwnerSpawn? || step.TaskSpawn?) && step.created && s.v.live && |s.v.joined| < s.v.cap;
            var ends := step.OwnerStep? && s.pc.Waiting?;
            && s'.v.joined == (if ends then s.v.joined[s.pc.i := true] else s.v.joined) + (if adds then [false] else [])
            && s'.finished == (if step.TaskFinish? then s.finished[step.t := true] else s.finished)
              + (if adds then [false] else [])
  {
    hide NextPending, PendingCount;
    RunsKeepInv(cap, states, steps, i);
  }

  /** A join, timed or not, and a shutdown that return OK leave every spawned task ended and joined;
      destroy frees the slots only then; and a nursery is dead only then. */
  lemma OkMeansQuiescent(cap: nat, states: seq<Sys>, steps: seq<Step>, i: nat)
    requires IsRun(cap, states, steps) && i < |steps|
    ensures var s, s' := states[i], states[i + 1];
            (exists op :: s'.answers == s.answers + [Answer(op, Rc.Ok)]) || s'.freed || !s'.v.live ==> Quiescent(s')
  {
    RunsKeepInv(cap, states, steps, i);
    RunsKeepInv(cap, states, steps, i + 1);
    var s, s' := states[i], states[i + 1];
    if op :| s'.answers == s.answers + [Answer(op, Rc.Ok)] {
      assert s'.answers[|s.answers|] == Answer(op, Rc.Ok);
      if steps[i].OwnerStep? && s.pc.Waiting? {
        NextIsPrefix(s'.(pc := Idle), s.pc.i + 1);
      } else if steps[i].OwnerCall? {
        NextIsPrefix(s, 0);
      }
    }
  }

  /** Quiescence lasts until the owner spawns again; a dead nursery stays quiescent for good. */
  lemma QuiescenceLasts(s: Sys, step: Step)
    requires Inv(s) && Quiescent(s) && Enabled(s, step)
    ensures Quiescent(Apply(s, step)) || (step.OwnerSpawn? && s.v.live)
    ensures !s.v.live ==> !Apply(s, step).v.live
  {
    NextIsPrefix(s, 0);
  }

  /** No step un-joins a slot or joins one twice: the joined slots grow, one next slot at a time, and a timed
      join that gives up changes neither slots nor flags. */
  lemma JoinsOnlyGrow(s: Sys, step: Step)
    requires Inv(s) && Enabled(s, step)
    ensures var s' := Apply(s, step);
            s'.joins == s.joins || (s'.joins == s.joins + [|s.joins|] && Ended(s, |s.joins|))
    ensures var s' := Apply(s, step);
            |s.v.joined| <= |s'.v.joined| && forall j :: 0 <= j < |s.v.joined| && s.v.joined[j] ==> s'.v.joined[j]
    ensures step.OwnerTimesOut? ==>
      var s' := Apply(s, step);
      s'.v == s.v && s'.finished == s.finished && s'.joins == s.joins && !s'.freed
  {
  }

  lemma {:induction false} PendingOfPrefix(joined: seq<bool>, k: nat)
    requires k <= |joined| && (forall j :: 0 <= j < |joined| ==> (joined[j] <==> j < k))
    ensures PendingCount(joined) == |joined| - k
    decreases |joined|
  {
    if joined != [] {
      PendingOfPrefix(joined[..|joined| - 1], if k < |joined| then k else k - 1);
    }
  }

  lemma JoinedIsPrefix(s: Sys)
    requires Inv(s)
    ensures |s.joins| <= |s.v.joined| && (forall k :: 0 <= k < |s.joins| ==> s.joins[k] == k)
    ensures forall k :: 0 <= k < |s.v.joined| ==> (s.v.joined[k] <==> k < |s.joins|)
    ensures PendingCount(s.v.joined) == |s.v.joined| - |s.joins|
  {
    hide PendingCount;
    assert forall k :: 0 <= k < |s.joins| ==> s.joins[k] == k && s.v.joined[k];
    PendingOfPrefix(s.v.joined, |s.joins|);
  }

  lemma {:induction false} JoinsExtend(cap: nat, states: seq<Sys>, steps: seq<Step>, i: nat, j: nat)
    requires IsRun(cap, states, steps) && i <= j < |states|
    ensures states[i].joins <= states[j].joins
    decreases j
  {
    hide Inv, Enabled, Apply;
    if i < j {
      JoinsExtend(cap, states, steps, i, j - 1);
      RunsKeepInv(cap, states, steps, j - 1);
      JoinsOnlyGrow(states[j - 1], steps[j - 1]);
    }
  }

  /** On every run: the joins of an earlier state begin those of a later one; the slots joined so far are the
      first ones, in order and once each, and no other slot is marked; and pending counts the rest. */
  lemma JoinsOfRun(cap: nat, states: seq<Sys>, steps: seq<Step>, i: nat, j: nat)
    requires IsRun(cap, states, steps) && i <= j < |states|
    ensures states[i].joins <= states[j].joins
    ensures var s := states[j];
            && |s.joins| <= |s.v.joined| && (forall k :: 0 <= k < |s.joins| ==> s.joins[k] == k)
            && (forall k :: 0 <= k < |s.v.joined| ==> (s.v.joined[k] <==> k < |s.joins|))
            && PendingCount(s.v.joined) == |s.v.joined| - |s.joins|
  {
    hide Inv, IsRun;
    RunsKeepInv(cap, states, steps, j);
    JoinedIsPrefix(states[j]);
    JoinsExtend(cap, states, steps, i, j);
  }

  lemma {:induction false} QuietUntilSpawn(cap: nat, states: seq<Sys>, steps: seq<Step>, i: nat, j: nat)
    requires IsRun(cap, states, steps) && i <= j < |states| && Quiescent(states[i])
    requires forall m :: i <= m < j ==> !steps[m].OwnerSpawn?
    ensures Quiescent(states[j])
    decreases j
  {
    hide Inv, Enabled, Apply, Quiescent;
    if i < j {
      QuietUntilSpawn(cap, states, steps, i, j - 1);
      RunsKeepInv(cap, states, steps, j - 1);
      QuiescenceLasts(states[j - 1], steps[j - 1]);
    }
  }

  /** Once a join has returned OK, and until the owner spawns again or shuts down, every further join, timed
      or not, returns OK at once and changes nothing else. */
  lemma JoinAgain(cap: nat, states: seq<Sys>, steps: seq<Step>, i: nat, j: nat)
    requires IsRun(cap, states, steps) && i < j < |steps|
    requires exists op :: states[i + 1].answers == states[i].answers + [Answer(op, Rc.Ok)]
    requires forall m :: i < m < j ==> !steps[m].OwnerSpawn?
    requires (steps[j] == OwnerCall(JoinAll) || steps[j] == OwnerCall(JoinTimed)) && states[j].v.live
    ensures states[j + 1] == states[j].(answers := states[j].answers + [Answer(steps[j].op, Rc.Ok)])
  {
    OkMeansQuiescent(cap, states, steps, i);
    QuietUntilSpawn(cap, states, steps, i + 1, j);
    RunsKeepInv(cap, states, steps, j);
    NextIsPrefix(states[j], 0);
  }

  lemma {:induction false} PendingSet(joined: seq<bool>, i: nat)
    requires i < |joined| && !joined[i]
    ensures PendingCount(joined[i := true]) == PendingCount(joined) - 1
    decreases |joined|
  {
    var joined', m := joined[i := true], |joined| - 1;
    if i < m {
      PendingSet(joined[..m], i);
      assert joined'[..m] == joined[..m][i := true];
    } else {
      assert joined'[..m] == joined[..m];
    }
  }

  /** What is left to do before a join must end. A free slot counts for a spawn, an end and a join. */
  function Work(s: Sys): int {
    3 * (s.v.cap - |s.v.joined|) + PendingCount(s.v.joined) + PendingCount(s.finished)
  }

  /** The steps that bring a waiting join nearer to its end, or give it one more task to wait for. */
  predicate Useful(s: Sys, step: Step) {
    step.OwnerStep? || step.TaskFinish? || (step.TaskSpawn? && SpawnRc(s.v, step.created) == Rc.Ok)
  }

  lemma WaitingMakesProgress(s: Sys, step: Step)
    requires Inv(s) && s.pc.Waiting? && Enabled(s, step)
    ensures Work(Apply(s, step)) <= Work(s) - (if Useful(s, step) then 1 else 0)
  {
    match step
    case OwnerStep => PendingSet(s.v.joined, s.pc.i);
    case TaskFinish(t) => PendingSet(s.finished, t);
    case TaskSpawn(_, created) =>
      var joined, finished := s.v.joined + [false], s.finished + [false];
      assert joined[..|joined| - 1] == s.v.joined && finished[..|finished| - 1] == s.finished;
    case _ =>
  }

  /** The useful steps from state i to state j. */
  function UsefulSteps(states: seq<Sys>, steps: seq<Step>, i: nat, j: nat): nat
    requires i <= j <= |steps| < |states|
    decreases j
  {
    if i == j then 0 else UsefulSteps(states, steps, i, j - 1) + (if Useful(states[j - 1], steps[j - 1]) then 1 else 0)
  }

  lemma {:induction false} WaitingUsesWork(cap: nat, states: seq<Sys>, steps: seq<Step>, i: nat, j: nat)
    requires IsRun(cap, states, steps) && i <= j < |states|
    requires forall m :: i <= m < j ==> states[m].pc.Waiting?
    ensures UsefulSteps(states, steps, i, j) <= Work(states[i]) - Work(states[j])
    decreases j
  {
    hide Inv, Enabled, Apply, Work, Useful;
    if i < j {
      WaitingUsesWork(cap, states, steps, i, j - 1);
      RunsKeepInv(cap, states, steps, j - 1);
      WaitingMakesProgress(states[j - 1], steps[j - 1]);
    }
  }

  lemma {:induction false} PendingBounds(flags: seq<bool>)
    ensures 0 <= PendingCount(flags) <= |flags|
  {
    if flags != [] { PendingBounds(flags[..|flags| - 1]); }
  }

  lemma CapIsConstant(cap: nat, states: seq<Sys>, steps: seq<Step>, i: nat)
    requires IsRun(cap, states, steps) && i < |states|
    ensures states[i].v.cap == cap
  {
    if i > 0 { CapIsConstant(cap, states, steps, i - 1); }
  }

  lemma WorkBounds(s: Sys)
    requires Inv(s)
    ensures 0 <= Work(s) <= 3 * s.v.cap
  {
    PendingBounds(s.v.joined);
    PendingBounds(s.finished);
  }

  lemma WaitingCanGoOn(s: Sys)
    requires Inv(s) && s.pc.Waiting?
    ensures Enabled(s, OwnerStep) || Enabled(s, TaskFinish(s.pc.i))
  {
  }

  /** On no run does a join get stuck or go on forever: as long as the owner waits, the thread it waits for can
      end or the owner can go on, and at most 3 * cap joins, ends of threads and spawns fit in one wait. */
  lemma WaitingEnds(cap: nat, states: seq<Sys>, steps: seq<Step>, i: nat, j: nat)
    requires IsRun(cap, states, steps) && i <= j < |states|
    requires forall m :: i <= m <= j ==> states[m].pc.Waiting?
    ensures Enabled(states[j], OwnerStep) || Enabled(states[j], TaskFinish(states[j].pc.i))
    ensures UsefulSteps(states, steps, i, j) <= 3 * cap
  {
    hide Inv, Enabled, IsRun, Work, UsefulSteps;
    RunsKeepInv(cap, states, steps, i);
    RunsKeepInv(cap, states, steps, j);
    CapIsConstant(cap, states, steps, i);
    WaitingUsesWork(cap, states, steps, i, j);
    WorkBounds(states[i]);
    WorkBounds(states[j]);
    WaitingCanGoOn(states[j]);
  }
}
