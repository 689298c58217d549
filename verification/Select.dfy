/** fx_select_recv2 of host/concur/fx_select.c, polling two shared channels while other threads use them. */
module Select {
  import opened Numeric
  import opened Channel
  import opened ChannelProtocol

  /** A pass that some other thread makes through a channel's lock. A thread that has to wait passes again
      when it has been woken, as another move. */
  datatype Move = MSend(v: int) | MRecv | MTry | MClose

  /** A pass through the lock of channel c: a poll of the select call, or a move of another thread. */
  datatype Step = Own(c: FxChan) | Other(c: FxChan, m: Move)

  function PhaseOf(s: Step): Phase {
    match s
    case Own(_) => CallTry
    case Other(_, MSend(v)) => CallSend(v)
    case Other(_, MRecv) => CallRecv
    case Other(_, MTry) => CallTry
    case Other(_, MClose) => CallClose
  }

  /** What a pass makes of the queue; one that has to wait leaves it alone. */
  function Next(q: Queue, s: Step): Queue { Effect(q, PhaseOf(s)) }

  /** The element that a pass removes. */
  function Removal(q: Queue, s: Step): seq<int> {
    if (IsRecv(PhaseOf(s)) || PhaseOf(s).CallTry?) && q.items != [] then [q.items[0]] else []
  }

  /** The element that a pass adds. */
  function Addition(q: Queue, s: Step): seq<int> {
    if IsSend(PhaseOf(s)) && SendOutcome(q) == Ok then [PhaseOf(s).v] else []
  }

  /** What a history of passes makes of channel c, which was q at its beginning. */
  function QueueAfter(q: Queue, c: FxChan, h: seq<Step>): Queue {
    if h == [] then q
    else
      var now, s := QueueAfter(q, c, h[..|h| - 1]), h[|h| - 1];
      if s.c == c then Next(now, s) else now
  }

  /** The elements that the history removes from channel c, and those it adds to it. */
  function Removed(q: Queue, c: FxChan, h: seq<Step>): seq<int> {
    if h == [] then []
    else
      var init, s := h[..|h| - 1], h[|h| - 1];
      Removed(q, c, init) + if s.c == c then Removal(QueueAfter(q, c, init), s) else []
  }

  function Added(q: Queue, c: FxChan, h: seq<Step>): seq<int> {
    if h == [] then []
    else
      var init, s := h[..|h| - 1], h[|h| - 1];
      Added(q, c, init) + if s.c == c then Addition(QueueAfter(q, c, init), s) else []
  }

  /** The elements that the select call itself takes, from any channel. */
  function Gives(start: map<FxChan, Queue>, h: seq<Step>): seq<(FxChan, int)> {
    if h == [] then []
    else
      var init, s := h[..|h| - 1], h[|h| - 1];
      Gives(start, init) + GivenBy(start, init, s)
  }

  function GivenBy(start: map<FxChan, Queue>, init: seq<Step>, s: Step): seq<(FxChan, int)> {
    if s.Own? && s.c in start then
      var items := QueueAfter(start[s.c], s.c, init).items;
      if items == [] then [] else [(s.c, items[0])]
    else []
  }

  lemma StepAppends(start: map<FxChan, Queue>, h: seq<Step>, s: Step)
    ensures Gives(start, h + [s]) == Gives(start, h) + GivenBy(start, h, s)
    ensures forall q: Queue, c: FxChan ::
      QueueAfter(q, c, h + [s]) == (if s.c == c then Next(QueueAfter(q, c, h), s) else QueueAfter(q, c, h))
  {
    assert (h + [s])[..|h + [s]| - 1] == h;
  }

  lemma NothingGiven(start: map<FxChan, Queue>)
    ensures Gives(start, []) == []
  {
  }

  /** Nothing is lost, reordered or made up: what channel c held and what was added to it is what was removed
      from it and then what it holds. */
  lemma {:induction false} Lossless(q: Queue, c: FxChan, h: seq<Step>)
    ensures q.items + Added(q, c, h) == Removed(q, c, h) + QueueAfter(q, c, h).items
  {
    hide Next, Removal, Addition;
    if h == [] {
      assert q.items + [] == [] + q.items;
    } else {
      var init, s := h[..|h| - 1], h[|h| - 1];
      Lossless(q, c, init);
      var now := QueueAfter(q, c, init);
      if s.c == c {
        PassConserves(now, s);
        Exchange(q.items, Added(q, c, init), Addition(now, s),
                 Removed(q, c, init), now.items, Removal(now, s), Next(now, s).items);
      } else {
        assert Added(q, c, init) + [] == Added(q, c, init) && Removed(q, c, init) + [] == Removed(q, c, init);
      }
    }
  }

  lemma Exchange(q: seq<int>, a: seq<int>, x: seq<int>, r: seq<int>, n: seq<int>, y: seq<int>, m: seq<int>)
    requires q + a == r + n && n + x == y + m
    ensures q + (a + x) == (r + y) + m
  {
    assert q + (a + x) == (q + a) + x;
    assert (r + n) + x == r + (n + x);
    assert r + (y + m) == (r + y) + m;
  }

  lemma PassConserves(q: Queue, s: Step)
    ensures q.items + Addition(q, s) == Removal(q, s) + Next(q, s).items
  {
  }

  /** A poll that took nothing found its channel empty. */
  lemma {:induction false} UnfruitfulFoundEmpty(start: map<FxChan, Queue>, h: seq<Step>, k: nat)
    requires k < |h| && h[k].Own? && h[k].c in start
    requires forall g :: g in Gives(start, h) ==> g.0 != h[k].c
    ensures QueueAfter(start[h[k].c], h[k].c, h[..k]).items == []
    decreases |h|
  {
    var init := h[..|h| - 1];
    if k < |init| {
      UnfruitfulFoundEmpty(start, init, k);
      assert init[..k] == h[..k];
    } else {
      assert h[..k] == init;
      var items := QueueAfter(start[h[k].c], h[k].c, init).items;
      assert items != [] ==> (h[k].c, items[0]) in Gives(start, h);
    }
  }

  // ---- the polling loop ----

  /** Every channel is what the history makes of it. */
  ghost predicate Explained(start: map<FxChan, Queue>, h: seq<Step>)
    reads start.Keys, set c | c in start :: c.buf
  {
    && (forall c, d :: c in start && d in start && c != d ==> c.buf != d.buf)
    && (forall c :: c in start ==> c.Valid() && c.View() == QueueAfter(start[c], c, h))
  }

  method Interfere(c: FxChan, m: Move)
    requires c.Valid()
    modifies c, c.buf
    ensures c.Valid() && c.View() == Next(old(c.View()), Other(c, m))
  {
    hide Ring;
    var rc: Outcome, out: int;
    match m {
      case MSend(v) => rc := c.SendPass(v);
      case MRecv => rc, out := c.RecvPass(0);
      case MTry => rc, out := c.TryRecv(0);
      case MClose => c.Close();
    }
  }

  function Steps(moves: seq<(FxChan, Move)>): (h: seq<Step>)
    ensures |h| == |moves| && forall i :: 0 <= i < |h| ==> h[i].Other?
  {
    seq(|moves|, i requires 0 <= i < |moves| => Other(moves[i].0, moves[i].1))
  }

  /** Between two polls, other threads make any moves on any channels; those on others do not matter here. */
  method Others(chans: set<FxChan>, moves: seq<(FxChan, Move)>, ghost start: map<FxChan, Queue>, ghost h0: seq<Step>)
    returns (ghost h: seq<Step>)
    requires start.Keys == chans && Explained(start, h0)
    modifies chans, set c | c in chans :: c.buf
    ensures Explained(start, h) && h == h0 + Steps(moves) && Gives(start, h) == Gives(start, h0)
  {
    hide QueueAfter, Next, Ring, Gives;
    h := h0;
    for i := 0 to |moves|
      invariant Explained(start, h) && h == h0 + Steps(moves)[..i] && Gives(start, h) == Gives(start, h0)
    {
      var (c, m) := moves[i];
      StepAppends(start, h, Other(c, m));
      if c in chans { Interfere(c, m); }
      h := h + [Other(c, m)];
    }
    assert Steps(moves)[..|moves|] == Steps(moves);
  }

  function Chans(a: FxChan?, b: FxChan?): set<FxChan> {
    (if a == null then {} else {a}) + (if b == null then {} else {b})
  }

  function OwnOf(c: FxChan?): seq<Step> { if c == null then [] else [Own(c)] }

  /** What other threads do before the k-th step of the select call. */
  function Gap(moves: seq<seq<(FxChan, Move)>>, k: nat): seq<Step> { Steps(GapMoves(moves, k)) }

  function GapMoves(moves: seq<seq<(FxChan, Move)>>, k: nat): seq<(FxChan, Move)> {
    if k < |moves| then moves[k] else []
  }

  /** Round k up to its sleep: a first and then b. */
  function Looks(a: FxChan?, b: FxChan?, moves: seq<seq<(FxChan, Move)>>, k: nat): seq<Step> {
    Gap(moves, 3 * k) + OwnOf(a) + Gap(moves, 3 * k + 1) + OwnOf(b)
  }

  /** The first n rounds, with their sleeps. */
  function Polling(a: FxChan?, b: FxChan?, moves: seq<seq<(FxChan, Move)>>, n: nat): seq<Step> {
    if n == 0 then [] else Polling(a, b, moves, n - 1) + Looks(a, b, moves, n - 1) + Gap(moves, 3 * n - 1)
  }

  /** The call took an element from c with the last pass, and from no channel anything else. */
  ghost predicate TookOnly(start: map<FxChan, Queue>, h: seq<Step>, c: FxChan?, out: int) {
    && c != null && h != [] && h[|h| - 1] == Own(c) && Gives(start, h[..|h| - 1]) == []
    && exists v :: Gives(start, h) == [(c, v)] && out == I32(v)
  }

  lemma LastTook(start: map<FxChan, Queue>, init: seq<Step>, c: FxChan, out: int)
    requires c in start && Gives(start, init) == []
    requires exists v :: Gives(start, init + [Own(c)]) == [(c, v)] && out == I32(v)
    ensures var items := QueueAfter(start[c], c, init).items; items != [] && out == I32(items[0])
  {
    hide Gives, QueueAfter;
    StepAppends(start, init, Own(c));
    var v :| Gives(start, init + [Own(c)]) == [(c, v)] && out == I32(v);
    assert GivenBy(start, init, Own(c)) == [(c, v)];
    assert GivenBy(start, init, Own(c))[0].1 == v;
  }

  /** What it reports is what c then had first, and every poll before found its channel empty: in its round
      too, a is preferred. */
  lemma TookTheFirst(start: map<FxChan, Queue>, h: seq<Step>, c: FxChan, out: int)
    requires TookOnly(start, h, c, out) && c in start
    ensures var items := QueueAfter(start[c], c, h[..|h| - 1]).items; items != [] && out == I32(items[0])
    ensures forall k :: 0 <= k < |h| - 1 && h[k].Own? && h[k].c in start ==>
      QueueAfter(start[h[k].c], h[k].c, h[..k]).items == []
  {
    hide Gives, QueueAfter;
    var init := h[..|h| - 1];
    assert h == init + [Own(c)];
    StepAppends(start, init, Own(c));
    LastTook(start, init, c, out);
    forall k | 0 <= k < |init| && h[k].Own? && h[k].c in start
      ensures QueueAfter(start[h[k].c], h[k].c, h[..k]).items == []
    {
      UnfruitfulFoundEmpty(start, init, k);
      assert init[..k] == h[..k];
    }
  }

  /** Others run, and then the select call polls c, if there is a c. */
  method PollOne(c: FxChan?, out0: int, moves: seq<(FxChan, Move)>, chans: set<FxChan>,
                 ghost start: map<FxChan, Queue>, ghost h0: seq<Step>)
    returns (took: bool, out: int, ghost h: seq<Step>)
    requires start.Keys == chans && Explained(start, h0) && (c != null ==> c in chans) && Gives(start, h0) == []
    modifies chans, set c | c in chans :: c.buf
    ensures Explained(start, h) && h == h0 + Steps(moves) + OwnOf(c)
    ensures if took then TookOnly(start, h, c, out) else Gives(start, h) == [] && out == out0
  {
    hide QueueAfter, Ring, Gives, Steps;
    out, took := out0, false;
    h := Others(chans, moves, start, h0);
    if c != null {
      StepAppends(start, h, Own(c));
      var st;
      st, out := c.TryRecv(out);
      took := st == Ok;
      h := h + [Own(c)];
      assert h[..|h| - 1] == h0 + Steps(moves);
    }
  }

  /** The loop's body up to the sleep: poll a, and b only if a gave nothing. */
  method Round(a: FxChan?, b: FxChan?, out0: int, moves: seq<seq<(FxChan, Move)>>, k: nat,
               ghost start: map<FxChan, Queue>, ghost h0: seq<Step>)
    returns (chosen: int, out: int, ghost h: seq<Step>)
    requires start.Keys == Chans(a, b) && Explained(start, h0) && Gives(start, h0) == []
    modifies Chans(a, b), set c | c in Chans(a, b) :: c.buf
    ensures Explained(start, h) && chosen in {-1, 0, 1}
    ensures h == h0 + if chosen == 0 then Gap(moves, 3 * k) + OwnOf(a) else Looks(a, b, moves, k)
    ensures chosen == -1 ==> Gives(start, h) == [] && out == out0
    ensures chosen != -1 ==> TookOnly(start, h, if chosen == 0 then a else b, out)
  {
    hide Explained, Gives, Steps, GapMoves, TookOnly;
    var took;
    took, out, h := PollOne(a, out0, GapMoves(moves, 3 * k), Chans(a, b), start, h0);
    assert h == h0 + (Gap(moves, 3 * k) + OwnOf(a));
    if took { return 0, out, h; }
    took, out, h := PollOne(b, out, GapMoves(moves, 3 * k + 1), Chans(a, b), start, h);
    assert h == h0 + Looks(a, b, moves, k);
    chosen := if took then 1 else -1;
  }

  datatype Result = SelOk | SelTimeout | SelRunning

  /** The whole history of a call that ended, or is still polling, after this many rounds that found nothing. */
  function HistoryOf(rc: Result, which: int, a: FxChan?, b: FxChan?, timeout: nat,
                     moves: seq<seq<(FxChan, Move)>>, rounds: nat): seq<Step> {
    if rc == SelOk then
      Polling(a, b, moves, rounds) +
      if which == 0 then Gap(moves, 3 * rounds) + OwnOf(a) else Looks(a, b, moves, rounds)
    else if rc == SelTimeout && timeout == 0 then Looks(a, b, moves, 0)
    else Polling(a, b, moves, rounds)
  }

  // ---- how often each channel is polled ----

  /** The polls of channel c in a history. */
  function Polls(h: seq<Step>, c: FxChan): nat {
    if h == [] then 0 else Polls(h[..|h| - 1], c) + (if h[|h| - 1] == Own(c) then 1 else 0)
  }

  /** How many of the two channels c is. */
  function Times(a: FxChan?, b: FxChan?, c: FxChan): nat { (if a == c then 1 else 0) + (if b == c then 1 else 0) }

  lemma {:induction false} PollsAppend(g: seq<Step>, h: seq<Step>, c: FxChan)
    ensures Polls(g + h, c) == Polls(g, c) + Polls(h, c)
  {
    if h == [] {
      assert g + h == g;
    } else {
      var init := h[..|h| - 1];
      PollsAppend(g, init, c);
      assert (g + h)[..|g + h| - 1] == g + init;
    }
  }

  lemma {:induction false} NoPolls(h: seq<Step>, c: FxChan)
    requires forall i :: 0 <= i < |h| ==> h[i].Other?
    ensures Polls(h, c) == 0
  {
    if h != [] { NoPolls(h[..|h| - 1], c); }
  }

  lemma OnePoll(d: FxChan?, c: FxChan)
    ensures Polls(OwnOf(d), c) == if d == c then 1 else 0
  {
    if d != null { assert OwnOf(d)[..0] == []; }
  }

  lemma PollsOfGap(moves: seq<seq<(FxChan, Move)>>, k: nat, c: FxChan)
    ensures Polls(Gap(moves, k), c) == 0
  {
    NoPolls(Gap(moves, k), c);
  }

  lemma PollsOfLooks(a: FxChan?, b: FxChan?, moves: seq<seq<(FxChan, Move)>>, k: nat, c: FxChan)
    ensures Polls(Looks(a, b, moves, k), c) == Times(a, b, c)
    ensures Polls(Gap(moves, 3 * k) + OwnOf(a), c) == if a == c then 1 else 0
  {
    hide Polls, Gap, OwnOf;
    PollsOfGap(moves, 3 * k, c);
    PollsOfGap(moves, 3 * k + 1, c);
    OnePoll(a, c);
    OnePoll(b, c);
    PollsAppend(Gap(moves, 3 * k), OwnOf(a), c);
    PollsAppend(Gap(moves, 3 * k) + OwnOf(a), Gap(moves, 3 * k + 1), c);
    PollsAppend(Gap(moves, 3 * k) + OwnOf(a) + Gap(moves, 3 * k + 1), OwnOf(b), c);
  }

  lemma {:induction false} PollsOfRounds(a: FxChan?, b: FxChan?, moves: seq<seq<(FxChan, Move)>>, n: nat, c: FxChan)
    ensures Polls(Polling(a, b, moves, n), c) == n * Times(a, b, c)
  {
    hide Polls, Gap, Looks, Times;
    if n == 0 {
      NoPolls([], c);
    } else {
      PollsOfRounds(a, b, moves, n - 1, c);
      PollsOfLooks(a, b, moves, n - 1, c);
      PollsOfGap(moves, 3 * n - 1, c);
      PollsAppend(Polling(a, b, moves, n - 1), Looks(a, b, moves, n - 1), c);
      PollsAppend(Polling(a, b, moves, n - 1) + Looks(a, b, moves, n - 1), Gap(moves, 3 * n - 1), c);
    }
  }

  /** The polls of the round in which a call took an element. */
  function LastPolls(rc: Result, which: int, a: FxChan?, b: FxChan?, c: FxChan): nat {
    if rc != SelOk then 0 else (if a == c then 1 else 0) + (if which != 0 && b == c then 1 else 0)
  }

  /** A round that found nothing polled both channels; the last round of a call that took from a polled only a. */
  lemma PollsOfHistory(rc: Result, which: int, a: FxChan?, b: FxChan?, timeout: nat,
                       moves: seq<seq<(FxChan, Move)>>, rounds: nat, c: FxChan)
    requires rc == SelTimeout ==> rounds == timeout + 1
    ensures Polls(HistoryOf(rc, which, a, b, timeout, moves, rounds), c) ==
      rounds * Times(a, b, c) + LastPolls(rc, which, a, b, c)
  {
    hide Polls, Gap, Looks, OwnOf, Polling;
    PollsOfRounds(a, b, moves, rounds, c);
    PollsOfLooks(a, b, moves, rounds, c);
    PollsOfLooks(a, b, moves, 0, c);
    PollsAppend(Polling(a, b, moves, rounds), Looks(a, b, moves, rounds), c);
    PollsAppend(Polling(a, b, moves, rounds), Gap(moves, 3 * rounds) + OwnOf(a), c);
  }

  predicate AllPolls(h: seq<Step>, cs: set<FxChan>) { forall i :: 0 <= i < |h| ==> h[i].Own? && h[i].c in cs }

  /** Polls that take nothing change nothing. */
  lemma {:induction false} QuietPolls(start: map<FxChan, Queue>, h: seq<Step>, c: FxChan)
    requires c in start && Gives(start, h) == [] && AllPolls(h, start.Keys)
    ensures QueueAfter(start[c], c, h) == start[c]
  {
    if h != [] { QuietPolls(start, h[..|h| - 1], c); }
  }

  /** If only polls happened and nothing was taken, then every channel polled was empty from the start. */
  lemma PolledWereEmpty(start: map<FxChan, Queue>, h: seq<Step>, c: FxChan)
    requires c in start && Gives(start, h) == [] && AllPolls(h, start.Keys)
    requires Polls(h, c) > 0
    ensures start[c].items == []
  {
    QuietPolls(start, h, c);
    var k := SomePoll(h, c);
    UnfruitfulFoundEmpty(start, h, k);
    GivesPrefix(start, h, k);
    QuietPolls(start, h[..k], c);
  }

  lemma {:induction false} SomePoll(h: seq<Step>, c: FxChan) returns (k: nat)
    requires Polls(h, c) > 0
    ensures k < |h| && h[k] == Own(c)
  {
    if h[|h| - 1] == Own(c) { k := |h| - 1; } else { k := SomePoll(h[..|h| - 1], c); }
  }

  lemma {:induction false} GivesPrefix(start: map<FxChan, Queue>, h: seq<Step>, k: nat)
    requires k <= |h| && Gives(start, h) == []
    ensures Gives(start, h[..k]) == []
    decreases |h|
  {
    hide QueueAfter, GivenBy;
    if k < |h| {
      assert Gives(start, h) == Gives(start, h[..|h| - 1]) + GivenBy(start, h[..|h| - 1], h[|h| - 1]);
      GivesPrefix(start, h[..|h| - 1], k);
      assert h[..|h| - 1][..k] == h[..k];
    } else {
      assert h[..k] == h;
    }
  }

  /** fx_select_recv2 for at most limit rounds, with the given interference before each of its steps.
      SelRunning means that it is still polling then. */
  method SelectRecv2(a: FxChan?, b: FxChan?, out0: int, timeout: nat, limit: nat,
                     moves: seq<seq<(FxChan, Move)>>, ghost start: map<FxChan, Queue>)
    returns (rc: Result, out: int, which: int, rounds: nat, ghost h: seq<Step>)
    requires timeout < TWO32
    requires start.Keys == Chans(a, b) && Explained(start, [])
    modifies Chans(a, b), set c | c in Chans(a, b) :: c.buf
    // the channels are what this exact history makes of them: the moves of the others, and the polls
    ensures Explained(start, h) && h == HistoryOf(rc, which, a, b, timeout, moves, rounds)
    ensures rc != SelOk ==> Gives(start, h) == [] && out == out0
    ensures rc == SelOk ==> which in {0, 1} && TookOnly(start, h, if which == 0 then a else b, out)
    ensures rc == SelTimeout ==> rounds == timeout + 1 < TWO32
    ensures timeout < TWO32 - 1 ==> rounds + (if rc == SelOk then 1 else 0) <= timeout + 1
    ensures timeout < TWO32 - 1 && limit > timeout ==> rc != SelRunning
    ensures rc == SelRunning ==> rounds == limit
    // every round that found nothing polled each channel, and so did the last one unless a gave
    ensures forall c :: c in Chans(a, b) ==> Polls(h, c) == rounds * Times(a, b, c) + LastPolls(rc, which, a, b, c)
  {
    hide Explained, Gives, TookOnly, HistoryOf, Chans;
    rc, out, which, rounds, h := PollAndSleep(a, b, out0, timeout, limit, moves, start);
    forall c | c in Chans(a, b)
      ensures Polls(h, c) == rounds * Times(a, b, c) + LastPolls(rc, which, a, b, c)
    {
      PollsOfHistory(rc, which, a, b, timeout, moves, rounds, c);
    }
  }

  /** Its loop. */
  method PollAndSleep(a: FxChan?, b: FxChan?, out0: int, timeout: nat, limit: nat,
                      moves: seq<seq<(FxChan, Move)>>, ghost start: map<FxChan, Queue>)
    returns (rc: Result, out: int, which: int, rounds: nat, ghost h: seq<Step>)
    requires timeout < TWO32
    requires start.Keys == Chans(a, b) && Explained(start, [])
    modifies Chans(a, b), set c | c in Chans(a, b) :: c.buf
    ensures Explained(start, h) && h == HistoryOf(rc, which, a, b, timeout, moves, rounds)
    ensures rc != SelOk ==> Gives(start, h) == [] && out == out0
    ensures rc == SelOk ==> which in {0, 1} && TookOnly(start, h, if which == 0 then a else b, out)
    ensures rc == SelTimeout ==> rounds == timeout + 1 < TWO32
    ensures timeout < TWO32 - 1 ==> rounds + (if rc == SelOk then 1 else 0) <= timeout + 1
    ensures timeout < TWO32 - 1 && limit > timeout ==> rc != SelRunning
    ensures rc == SelRunning ==> rounds == limit
  {
    hide Explained, Gives, Steps, GapMoves, Looks, OwnOf, TookOnly;
    NothingGiven(start);
    h, out, which, rounds := [], out0, 0, 0;
    var waited := 0;
    while waited <= timeout
      invariant 0 <= waited < TWO32 && (rounds == waited || (timeout == TWO32 - 1 && rounds >= waited))
      invariant waited <= timeout + 1 && rounds <= limit && (timeout == 0 ==> rounds == 0)
      invariant Explained(start, h) && h == Polling(a, b, moves, rounds) && Gives(start, h) == [] && out == out0
      decreases limit - rounds
    {
      if rounds == limit { return SelRunning, out, which, rounds, h; }
      var chosen;
      chosen, out, h := Round(a, b, out, moves, rounds, start, h);
      if chosen != -1 { return SelOk, out, chosen, rounds, h; }
      rounds := rounds + 1;
      if timeout == 0 { break; }
      h := Others(Chans(a, b), GapMoves(moves, 3 * rounds - 1), start, h);
      waited := (waited + 1) % TWO32;
    }
    return SelTimeout, out, which, rounds, h;
  }

  /** With no channel to poll the call times out if and only if its timeout is below 2^32 - 1; at that
      timeout it is still polling after any number of rounds. */
  method SelectNothing(timeout: nat, limit: nat) returns (rc: Result)
    requires timeout < TWO32
    ensures limit > timeout ==> (rc == SelTimeout <==> timeout < TWO32 - 1)
    ensures timeout == TWO32 - 1 ==> rc == SelRunning
  {
    ghost var h;
    var out, which, rounds;
    rc, out, which, rounds, h := SelectRecv2(null, null, 0, timeout, limit, [], map[]);
  }

  lemma AllPollsAppend(g: seq<Step>, h: seq<Step>, cs: set<FxChan>)
    requires AllPolls(g, cs) && AllPolls(h, cs)
    ensures AllPolls(g + h, cs)
  {
  }

  lemma QuietGap(k: nat)
    ensures Gap([], k) == []
  {
  }

  lemma QuietLooks(a: FxChan?, b: FxChan?, k: nat)
    ensures AllPolls(OwnOf(a), Chans(a, b)) && AllPolls(OwnOf(b), Chans(a, b))
    ensures AllPolls(Gap([], 3 * k) + OwnOf(a), Chans(a, b)) && AllPolls(Looks(a, b, [], k), Chans(a, b))
  {
    hide Gap;
    QuietGap(3 * k);
    QuietGap(3 * k + 1);
    assert [] + OwnOf(a) == OwnOf(a) && OwnOf(a) + [] == OwnOf(a);
    AllPollsAppend(OwnOf(a), OwnOf(b), Chans(a, b));
  }

  lemma {:induction false} QuietRounds(a: FxChan?, b: FxChan?, n: nat)
    ensures AllPolls(Polling(a, b, [], n), Chans(a, b))
  {
    hide Gap, Looks, OwnOf, Chans, AllPolls;
    if n == 0 {
      assert AllPolls([], Chans(a, b)) by { NoneIsAllPolls(Chans(a, b)); }
    } else {
      QuietRounds(a, b, n - 1);
      QuietLooks(a, b, n - 1);
      QuietGap(3 * n - 1);
      NoneIsAllPolls(Chans(a, b));
      AllPollsAppend(Polling(a, b, [], n - 1), Looks(a, b, [], n - 1), Chans(a, b));
      AllPollsAppend(Polling(a, b, [], n - 1) + Looks(a, b, [], n - 1), [], Chans(a, b));
    }
  }

  lemma NoneIsAllPolls(cs: set<FxChan>)
    ensures AllPolls([], cs)
  {
  }

  /** With no one else about, the history is polls of a and b only. */
  lemma QuietHistory(rc: Result, which: int, a: FxChan?, b: FxChan?, timeout: nat, rounds: nat)
    ensures AllPolls(HistoryOf(rc, which, a, b, timeout, [], rounds), Chans(a, b))
  {
    hide Gap, Looks, OwnOf, Chans, AllPolls, Polling;
    QuietRounds(a, b, rounds);
    QuietLooks(a, b, rounds);
    QuietLooks(a, b, 0);
    AllPollsAppend(Polling(a, b, [], rounds), Gap([], 3 * rounds) + OwnOf(a), Chans(a, b));
    AllPollsAppend(Polling(a, b, [], rounds), Looks(a, b, [], rounds), Chans(a, b));
  }

  /** What such a call takes was in its channel from the start, and the channels it polled before had nothing. */
  lemma TookFromStart(start: map<FxChan, Queue>, h: seq<Step>, c: FxChan, out: int)
    requires c in start && TookOnly(start, h, c, out)
    requires AllPolls(h, start.Keys)
    ensures start[c].items != [] && out == I32(start[c].items[0])
    ensures forall d :: d in start && Polls(h, d) > (if d == c then 1 else 0) ==> start[d].items == []
  {
    hide Gives, QueueAfter;
    var init := h[..|h| - 1];
    TookTheFirst(start, h, c, out);
    QuietPolls(start, init, c);
    forall d | d in start && Polls(h, d) > (if d == c then 1 else 0)
      ensures start[d].items == []
    {
      PolledWereEmpty(start, init, d);
    }
  }

  /** With no one else about and some round to run, the call takes an element if and only if a channel has one,
      and takes it from a if and only if a has one. */
  method SelectAlone(a: FxChan?, b: FxChan?, out0: int, timeout: nat, limit: nat, ghost start: map<FxChan, Queue>)
    returns (rc: Result, out: int, which: int)
    requires timeout < TWO32 && limit > 0
    requires start.Keys == Chans(a, b) && Explained(start, [])
    modifies Chans(a, b), set c | c in Chans(a, b) :: c.buf
    ensures rc == SelOk <==> (a != null && start[a].items != []) || (b != null && start[b].items != [])
    ensures rc == SelOk ==> (which == 0 <==> a != null && start[a].items != [])
    ensures rc == SelOk ==> out == I32(start[if which == 0 then a else b].items[0])
  {
    hide Explained, Gives, HistoryOf;
    var rounds;
    ghost var h;
    rc, out, which, rounds, h := SelectRecv2(a, b, out0, timeout, limit, [], start);
    QuietHistory(rc, which, a, b, timeout, rounds);
    if rc == SelOk {
      TookFromStart(start, h, if which == 0 then a else b, out);
    } else {
      if a != null { PolledWereEmpty(start, h, a); }
      if b != null { PolledWereEmpty(start, h, b); }
    }
  }
}
