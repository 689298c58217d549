/** fx_async_nursery_spawn_send of host/concur/fx_async_bridge.c: tasks that each send one value on a
    channel, composed with the nursery that runs them. No one else uses the channel. */
module SpawnSend {
  import opened Channel
  import N = NurseryProtocol
  import Nursery

  /** vals[i] is the value of the i-th task started here, which runs in slot base + i; sent says whose
      send has returned. The channel held items0 when the first of them was started. */
  datatype Sys = Sys(n: N.Sys, q: Queue, items0: seq<int>, base: nat, vals: seq<int>, sent: seq<bool>)

  datatype Step =
    | Start(v: int, created: bool)
    | Join
    | OwnerStep
    | Send(i: nat)
    | Finish(i: nat)

  predicate Enabled(s: Sys, step: Step) {
    match step
    case Start(_, created) => N.Enabled(s.n, N.OwnerSpawn(created))
    case Join => N.Enabled(s.n, N.OwnerCall(N.JoinAll))
    case OwnerStep => N.Enabled(s.n, N.OwnerStep)
    case Send(i) => i < |s.sent| && i < |s.vals| && !s.sent[i] && N.Enabled(s.n, N.TaskFinish(s.base + i))
    case Finish(i) => i < |s.sent| && s.sent[i] && N.Enabled(s.n, N.TaskFinish(s.base + i))
  }

  /** A send that has to wait leaves its task unsent: it is still inside fx_chan_send. */
  function Apply(s: Sys, step: Step): Sys
    requires Enabled(s, step)
  {
    match step
    case Start(v, created) =>
      var s' := s.(n := N.Apply(s.n, N.OwnerSpawn(created)));
      if Nursery.SpawnRc(s.n.v, created) != Nursery.Rc.Ok then s'
      else s'.(vals := s.vals + [v], sent := s.sent + [false])
    case Join => s.(n := N.Apply(s.n, N.OwnerCall(N.JoinAll)))
    case OwnerStep => s.(n := N.Apply(s.n, N.OwnerStep))
    case Send(i) =>
      if SendOutcome(s.q) == Wait then s else s.(q := Sent(s.q, s.vals[i]), sent := s.sent[i := true])
    case Finish(i) => s.(n := N.Apply(s.n, N.TaskFinish(s.base + i)))
  }

  /** The values whose sends have returned. */
  function Done(vals: seq<int>, sent: seq<bool>): multiset<int>
    requires |vals| == |sent|
  {
    if vals == [] then multiset{}
    else
      var m := |vals| - 1;
      Done(vals[..m], sent[..m]) + (if sent[m] then multiset{vals[m]} else multiset{})
  }

  /** k tasks at most are started, on an open channel with that much room, from a quiet nursery. */
  ghost predicate Initial(s: Sys, k: nat) {
    && N.Inv(s.n) && s.n.pc.Idle? && s.n.v.live && !s.n.freed && N.Quiescent(s.n)
    && WfQueue(s.q) && !s.q.closed && |s.q.items| + k <= s.q.cap
    && s.items0 == s.q.items && s.base == |s.n.finished| && s.vals == [] && s.sent == []
  }

  ghost predicate Inv(s: Sys, k: nat) {
    && N.Inv(s.n) && s.n.v.live && !s.n.freed && (s.n.pc.Idle? || (s.n.pc.Waiting? && s.n.pc.op == N.JoinAll))
    && |s.vals| == |s.sent| && s.base + |s.sent| == |s.n.finished|
    && (forall t :: 0 <= t < s.base ==> s.n.finished[t])
    && (forall t :: s.base <= t < |s.n.finished| && s.n.finished[t] ==> s.sent[t - s.base])
    && WfQueue(s.q) && !s.q.closed && |s.items0| + k <= s.q.cap
    && s.items0 <= s.q.items && multiset(s.q.items[|s.items0|..]) == Done(s.vals, s.sent)
  }

  /** The states of a run that starts at most k tasks, one per step. */
  ghost predicate IsRun(k: nat, states: seq<Sys>, steps: seq<Step>) {
    && |states| == |steps| + 1 && Initial(states[0], k)
    && (forall i :: 0 <= i < |states| ==> |states[i].vals| <= k)
    && forall i :: 0 <= i < |steps| ==> Enabled(states[i], steps[i]) && states[i + 1] == Apply(states[i], steps[i])
  }

  lemma {:induction false} DoneSize(vals: seq<int>, sent: seq<bool>)
    requires |vals| == |sent|
    ensures |Done(vals, sent)| == |vals| - Nursery.PendingCount(sent) && Nursery.PendingCount(sent) >= 0
  {
    if vals != [] {
      var m := |vals| - 1;
      DoneSize(vals[..m], sent[..m]);
    }
  }

  lemma {:induction false} DoneSet(vals: seq<int>, sent: seq<bool>, i: nat)
    requires |vals| == |sent| && i < |sent| && !sent[i]
    ensures Done(vals, sent[i := true]) == Done(vals, sent) + multiset{vals[i]}
    decreases |vals|
  {
    var m := |vals| - 1;
    if i < m {
      DoneSet(vals[..m], sent[..m], i);
      assert sent[i := true][..m] == sent[..m][i := true];
    } else {
      assert sent[i := true][..m] == sent[..m];
    }
  }

  lemma {:induction false} DoneAll(vals: seq<int>, sent: seq<bool>)
    requires |vals| == |sent| && forall i :: 0 <= i < |sent| ==> sent[i]
    ensures Done(vals, sent) == multiset(vals)
  {
    if vals != [] {
      var m := |vals| - 1;
      DoneAll(vals[..m], sent[..m]);
      assert vals == vals[..m] + [vals[m]];
    }
  }

  /** There is room for every value that is still to be sent, so no send ever waits. */
  lemma RoomToSend(s: Sys, k: nat, i: nat)
    requires Inv(s, k) && |s.vals| <= k && i < |s.sent| && !s.sent[i]
    ensures SendOutcome(s.q) == Ok
  {
    DoneSize(s.vals, s.sent);
    N.PendingSet(s.sent, i);
    DoneSize(s.vals, s.sent[i := true]);
    assert |s.q.items[|s.items0|..]| == |multiset(s.q.items[|s.items0|..])|;
  }

  /** One more value behind what the buffer held is one more value sent. */
  lemma SendAppends(items0: seq<int>, items: seq<int>, vals: seq<int>, sent: seq<bool>, i: nat)
    requires |vals| == |sent| && i < |sent| && !sent[i]
    requires items0 <= items && multiset(items[|items0|..]) == Done(vals, sent)
    ensures items0 <= items + [vals[i]]
    ensures multiset((items + [vals[i]])[|items0|..]) == Done(vals, sent[i := true])
  {
    hide Done;
    DoneSet(vals, sent, i);
    assert (items + [vals[i]])[|items0|..] == items[|items0|..] + [vals[i]];
  }

  lemma SendKeepsInv(s: Sys, k: nat, i: nat)
    requires Inv(s, k) && |s.vals| <= k && Enabled(s, Send(i))
    ensures Inv(Apply(s, Send(i)), k)
  {
    hide N.Inv, N.Enabled, Done;
    RoomToSend(s, k, i);
    SendAppends(s.items0, s.q.items, s.vals, s.sent, i);
  }

  lemma DoneMore(vals: seq<int>, sent: seq<bool>, v: int)
    requires |vals| == |sent|
    ensures Done(vals + [v], sent + [false]) == Done(vals, sent)
  {
    var vals', sent' := vals + [v], sent + [false];
    assert vals'[..|vals|] == vals && sent'[..|vals|] == sent;
  }

  lemma StartKeepsInv(s: Sys, k: nat, v: int, created: bool)
    requires Inv(s, k) && Enabled(s, Start(v, created))
    ensures Inv(Apply(s, Start(v, created)), k)
  {
    hide Done;
    N.StepKeepsInv(s.n, N.OwnerSpawn(created));
    DoneMore(s.vals, s.sent, v);
  }

  lemma OwnerKeepsInv(s: Sys, k: nat, step: Step)
    requires Inv(s, k) && Enabled(s, step) && (step.Join? || step.OwnerStep?)
    ensures Inv(Apply(s, step), k)
  {
    hide Done;
    if step.Join? {
      N.StepKeepsInv(s.n, N.OwnerCall(N.JoinAll));
    } else {
      N.StepKeepsInv(s.n, N.OwnerStep);
    }
  }

  lemma FinishKeepsInv(s: Sys, k: nat, i: nat)
    requires Inv(s, k) && Enabled(s, Finish(i))
    ensures Inv(Apply(s, Finish(i)), k)
  {
    hide Done;
    N.StepKeepsInv(s.n, N.TaskFinish(s.base + i));
  }

  lemma StepKeepsInv(s: Sys, k: nat, step: Step)
    requires Inv(s, k) && |s.vals| <= k && Enabled(s, step)
    ensures Inv(Apply(s, step), k)
  {
    hide Inv;
    match step
    case Start(v, created) => StartKeepsInv(s, k, v, created);
    case Finish(i) => FinishKeepsInv(s, k, i);
    case Send(i) => SendKeepsInv(s, k, i);
    case _ => OwnerKeepsInv(s, k, step);
  }

  lemma {:induction false} RunsKeepInv(k: nat, states: seq<Sys>, steps: seq<Step>, i: nat)
    requires IsRun(k, states, steps) && i < |states|
    ensures Inv(states[i], k) && |states[i].vals| <= k
  {
    if i > 0 {
      RunsKeepInv(k, states, steps, i - 1);
      StepKeepsInv(states[i - 1], k, steps[i - 1]);
    }
  }

  lemma QuiescentMeansAllSent(s: Sys, k: nat)
    requires Inv(s, k) && N.Quiescent(s.n)
    ensures s.items0 <= s.q.items && multiset(s.q.items[|s.items0|..]) == multiset(s.vals)
  {
    hide N.Inv, Done;
    assert forall i :: 0 <= i < |s.sent| ==> s.sent[i] by {
      forall i | 0 <= i < |s.sent|
        ensures s.sent[i]
      {
        assert s.n.finished[s.base + i];
      }
    }
    DoneAll(s.vals, s.sent);
  }

  /** When join_all returns OK, the buffer is what it was and then a permutation of the values. */
  lemma JoinedMeansAllSent(k: nat, states: seq<Sys>, steps: seq<Step>, i: nat)
    requires IsRun(k, states, steps) && i < |steps|
    requires states[i + 1].n.answers == states[i].n.answers + [N.Answer(N.JoinAll, Nursery.Rc.Ok)]
    ensures var s := states[i + 1];
            s.items0 <= s.q.items && multiset(s.q.items[|s.items0|..]) == multiset(s.vals)
  {
    hide Done, Initial, WfQueue;
    RunsKeepInv(k, states, steps, i);
    RunsKeepInv(k, states, steps, i + 1);
    AnswerMeansQuiescent(states[i], k, steps[i]);
    QuiescentMeansAllSent(states[i + 1], k);
  }

  lemma AnswerMeansQuiescent(s: Sys, k: nat, step: Step)
    requires Inv(s, k) && Enabled(s, step) && Inv(Apply(s, step), k)
    requires Apply(s, step).n.answers == s.n.answers + [N.Answer(N.JoinAll, Nursery.Rc.Ok)]
    ensures N.Quiescent(Apply(s, step).n)
  {
    hide Done, WfQueue;
    var s' := Apply(s, step);
    assert s'.n.answers[|s.n.answers|] == N.Answer(N.JoinAll, Nursery.Rc.Ok);
    if step.OwnerStep? {
      N.NextIsPrefix(s'.n.(pc := N.Idle), s.n.pc.i + 1);
    } else {
      N.NextIsPrefix(s.n, 0);
    }
  }

  /** A join_all that is over has answered OK: when it ends its wait, or at once when there is nothing to wait
      for. The buffer is then what it was and then a permutation of the values. */
  lemma JoinReturnsOk(k: nat, states: seq<Sys>, steps: seq<Step>, i: nat)
    requires IsRun(k, states, steps) && i < |steps| && !states[i + 1].n.pc.Waiting?
    requires states[i].n.pc.Waiting? || steps[i] == Join
    ensures states[i + 1].n.answers == states[i].n.answers + [N.Answer(N.JoinAll, Nursery.Rc.Ok)]
    ensures var s := states[i + 1];
            s.items0 <= s.q.items && multiset(s.q.items[|s.items0|..]) == multiset(s.vals)
  {
    RunsKeepInv(k, states, steps, i);
    JoinAnswers(states[i], k, steps[i]);
    JoinedMeansAllSent(k, states, steps, i);
  }

  lemma JoinAnswers(s: Sys, k: nat, step: Step)
    requires Inv(s, k) && Enabled(s, step) && !Apply(s, step).n.pc.Waiting? && (s.n.pc.Waiting? || step == Join)
    ensures Apply(s, step).n.answers == s.n.answers + [N.Answer(N.JoinAll, Nursery.Rc.Ok)]
  {
    hide Done, WfQueue;
  }

  /** Sends, thread ends and joins that are still to come. */
  function Work(s: Sys): nat {
    Nursery.PendingCount(s.sent) + Nursery.PendingCount(s.n.finished) + Nursery.PendingCount(s.n.v.joined)
  }

  /** While join_all waits, some step can always be taken, so no interleaving gets stuck. */
  lemma WaitingIsNotStuck(s: Sys, k: nat)
    requires Inv(s, k) && s.n.pc.Waiting?
    ensures exists e :: Enabled(s, e)
  {
    hide Done, WfQueue;
    var t := s.n.pc.i;
    assert Enabled(s, OwnerStep) || (t >= s.base && (Enabled(s, Send(t - s.base)) || Enabled(s, Finish(t - s.base))));
  }

  /** And every step uses up work, so none runs forever before join_all returns. */
  lemma WaitingEnds(s: Sys, k: nat, step: Step)
    requires Inv(s, k) && |s.vals| <= k && s.n.pc.Waiting? && Enabled(s, step)
    ensures Work(Apply(s, step)) < Work(s)
  {
    hide Done, WfQueue;
    match step
    case OwnerStep => N.PendingSet(s.n.v.joined, s.n.pc.i);
    case Finish(i) => N.PendingSet(s.n.finished, s.base + i);
    case Send(i) =>
      RoomToSend(s, k, i);
      N.PendingSet(s.sent, i);
  }

  /** On every run: while join_all waits some step can be taken, and no more steps fit in the wait than there
      were sends, thread ends and joins to come; so join_all returns whatever the interleaving. */
  lemma {:induction false} JoinEnds(k: nat, states: seq<Sys>, steps: seq<Step>, i: nat, j: nat)
    requires IsRun(k, states, steps) && i <= j < |states|
    requires forall m :: i <= m <= j ==> states[m].n.pc.Waiting?
    ensures exists e :: Enabled(states[j], e)
    ensures Work(states[j]) <= Work(states[i]) - (j - i)
    decreases j
  {
    hide Inv, Enabled, Work, Apply;
    RunsKeepInv(k, states, steps, j);
    WaitingIsNotStuck(states[j], k);
    if i < j {
      JoinEnds(k, states, steps, i, j - 1);
      RunsKeepInv(k, states, steps, j - 1);
      WaitingEnds(states[j - 1], k, steps[j - 1]);
    }
  }
}
