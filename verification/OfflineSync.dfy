/**
 * Overlapping replay loops over one persistent queue. Each loop owns the snapshot it took;
 * a request is split from its answer at the await, so enqueues, other loops, lost answers
 * and late or repeated arrivals at the server may fall in between.
 */
module OfflineSync {
  import opened OfflineQueue

  /** A loop waiting for the answer to snapshot[pos]; `from` counts what was removed before it began. */
  datatype Loop = Loop(snapshot: seq<Mutation>, pos: nat, from: int)

  /**
   * queue and loops are the running system. The rest is history: everything ever enqueued,
   * everything ever sent, the server's log of arrivals, and the ids removed after an answer.
   */
  datatype State = State(
    queue: seq<Mutation>,
    loops: map<nat, Loop>,
    enqueued: seq<Mutation>,
    sent: set<Mutation>,
    log: seq<Mutation>,
    acked: set<string>)

  const INIT := State([], map[], [], {}, [], {})

  datatype Event =
    | Enqueue(m: Mutation)
    | Start(loop: nat)
    | Arrive(m: Mutation)
    | Answer(loop: nat)
    | Fail(loop: nat)

  predicate Enabled(s: State, e: Event) {
    match e
    case Enqueue(m) => forall n | n in s.enqueued :: n.id != m.id
    case Start(l) => l !in s.loops && s.queue != []
    case Arrive(m) => m in s.sent
    case Answer(l) =>
      l in s.loops && s.loops[l].pos < |s.loops[l].snapshot| && s.loops[l].snapshot[s.loops[l].pos] in s.log
    case Fail(l) => l in s.loops
  }

  function Step(s: State, e: Event): State
    requires Enabled(s, e)
  {
    match e
    case Enqueue(m) => s.(queue := s.queue + [m], enqueued := s.enqueued + [m])
    case Start(l) =>
      s.(loops := s.loops[l := Loop(s.queue, 0, |s.enqueued| - |s.queue|)], sent := s.sent + {s.queue[0]})
    case Arrive(m) => s.(log := s.log + [m])
    case Answer(l) =>
      var Loop(snapshot, pos, from) := s.loops[l];
      var removed := s.(queue := Without(s.queue, snapshot[pos].id), acked := s.acked + {snapshot[pos].id});
      if pos + 1 == |snapshot| then removed.(loops := s.loops - {l})
      else removed.(loops := s.loops[l := Loop(snapshot, pos + 1, from)], sent := s.sent + {snapshot[pos + 1]})
    case Fail(l) => s.(loops := s.loops - {l})
  }

  /** The states a run of events passes from `s` to `t`; every event is enabled in its turn. */
  ghost predicate Runs(s: State, events: seq<Event>, t: State)
    decreases |events|
  {
    if events == [] then s == t
    else Enabled(s, events[0]) && Runs(Step(s, events[0]), events[1..], t)
  }

  lemma {:induction false} RunsSnoc(s: State, events: seq<Event>, t: State, e: Event)
    requires Runs(s, events, t) && Enabled(t, e)
    ensures Runs(s, events + [e], Step(t, e))
    decreases |events|
  {
    if events == [] {
      assert [e][1..] == [];
      assert Runs(Step(t, e), [], Step(t, e));
    } else {
      RunsSnoc(Step(s, events[0]), events[1..], t, e);
      assert (events + [e])[1..] == events[1..] + [e];
    }
  }

  /** The log without repeated arrivals: mutations in order of first delivery. */
  function FirstDeliveries(log: seq<Mutation>): seq<Mutation> {
    if log == [] then []
    else
      var n := |log| - 1;
      FirstDeliveries(log[..n]) + (if log[n] in log[..n] then [] else [log[n]])
  }

  lemma {:induction false} FirstDeliveriesMembers(log: seq<Mutation>)
    ensures forall m :: m in FirstDeliveries(log) <==> m in log
  {
    if log != [] {
      FirstDeliveriesMembers(log[..|log| - 1]);
      assert log == log[..|log| - 1] + [log[|log| - 1]];
    }
  }

  /* ---------- the inductive invariant ---------- */

  /** How many mutations have left the queue. */
  function Removed(s: State): int { |s.enqueued| - |s.queue| }

  /** `part` stands in `whole` from position `from` on. */
  ghost predicate StandsAt(part: seq<Mutation>, whole: seq<Mutation>, from: int) {
    && 0 <= from && from + |part| <= |whole|
    && forall i | 0 <= i < |part| :: part[i] == whole[from + i]
  }

  ghost predicate LoopInv(s: State, l: Loop) {
    && l.pos < |l.snapshot|
    && l.from + l.pos <= Removed(s)
    && StandsAt(l.snapshot, s.enqueued, l.from)
  }

  /** The queue is what is left of the enqueue order once a prefix has been removed. */
  ghost predicate QueueInv(s: State) {
    && DistinctIds(s.enqueued)
    && StandsAt(s.queue, s.enqueued, Removed(s))
  }

  /** `m` has been removed, or it is the head of the queue. */
  ghost predicate UpToHead(s: State, m: Mutation) {
    exists i :: 0 <= i <= Removed(s) && i < |s.enqueued| && s.enqueued[i] == m
  }

  ghost predicate Cleared(s: State, id: string) {
    exists i :: 0 <= i < Removed(s) && i < |s.enqueued| && s.enqueued[i].id == id
  }

  /** The position `i` has been delivered and answered. */
  ghost predicate Settled(s: State, i: nat)
    requires i < |s.enqueued|
  {
    s.enqueued[i] in FirstDeliveries(s.log) && s.enqueued[i].id in s.acked
  }

  ghost predicate AllLoops(s: State) { forall l | l in s.loops :: LoopInv(s, s.loops[l]) }

  ghost predicate AllSent(s: State) { forall m | m in s.sent :: UpToHead(s, m) }

  ghost predicate AllSettled(s: State) { forall i | 0 <= i < Removed(s) && i < |s.enqueued| :: Settled(s, i) }

  ghost predicate AllCleared(s: State) { forall id | id in s.acked :: Cleared(s, id) }

  ghost predicate Inv(s: State) {
    && QueueInv(s) && AllLoops(s) && AllSent(s) && AllSettled(s) && AllCleared(s)
    && (forall m | m in s.log :: m in s.sent)
    && FirstDeliveries(s.log) <= s.enqueued
  }

  /** A change of history that only adds to it keeps what was settled. */
  lemma HistoryGrows(s: State, t: State)
    requires 0 <= Removed(s) <= Removed(t) && s.enqueued <= t.enqueued
    ensures forall m :: UpToHead(s, m) ==> UpToHead(t, m)
    ensures forall id :: Cleared(s, id) ==> Cleared(t, id)
    ensures forall l :: LoopInv(s, l) ==> LoopInv(t, l)
  {
    forall m | UpToHead(s, m) ensures UpToHead(t, m) {
      var i :| 0 <= i <= Removed(s) && i < |s.enqueued| && s.enqueued[i] == m;
      assert t.enqueued[i] == m;
    }
    forall id | Cleared(s, id) ensures Cleared(t, id) {
      var i :| 0 <= i < Removed(s) && i < |s.enqueued| && s.enqueued[i].id == id;
      assert t.enqueued[i].id == id;
    }
    forall l | LoopInv(s, l) ensures LoopInv(t, l) {
      assert StandsAt(l.snapshot, t.enqueued, l.from);
    }
  }

  lemma EnqueueKeepsInv(s: State, m: Mutation)
    requires Inv(s) && Enabled(s, Enqueue(m))
    ensures Inv(Step(s, Enqueue(m)))
  {
    var t := Step(s, Enqueue(m));
    HistoryGrows(s, t);
    forall i | 0 <= i < Removed(t) ensures Settled(t, i) {
      assert Settled(s, i);
    }
  }

  lemma StartKeepsInv(s: State, l: nat)
    requires Inv(s) && Enabled(s, Start(l))
    ensures Inv(Step(s, Start(l)))
  {
    var t := Step(s, Start(l));
    HistoryGrows(s, t);
    assert t.enqueued[Removed(t)] == s.queue[0];
    assert LoopInv(t, t.loops[l]);
    forall i | 0 <= i < Removed(t) ensures Settled(t, i) {
      assert Settled(s, i);
    }
  }

  /** A first arrival can only be of the mutation at the head of the queue. */
  lemma FirstArrivalIsHead(s: State, m: Mutation)
    requires Inv(s) && m in s.sent && m !in s.log
    ensures s.queue != [] && m == s.queue[0] && |FirstDeliveries(s.log)| == Removed(s)
  {
    assert UpToHead(s, m);
    var first := FirstDeliveries(s.log);
    FirstDeliveriesMembers(s.log);
    var i :| 0 <= i <= Removed(s) && i < |s.enqueued| && s.enqueued[i] == m;
    forall k | 0 <= k < Removed(s) ensures s.enqueued[k] != m {
      assert Settled(s, k);
    }
    DeliveredCoversRemoved(s);
    forall j | 0 <= j < |first| ensures first[j] != m {
      assert first[j] in first;
    }
    assert |first| <= i;
  }

  lemma DeliveredCoversRemoved(s: State)
    requires Inv(s)
    ensures |FirstDeliveries(s.log)| >= Removed(s)
  {
    var first := FirstDeliveries(s.log);
    if Removed(s) > 0 {
      var i := Removed(s) - 1;
      assert Settled(s, i);
      var j :| 0 <= j < |first| && first[j] == s.enqueued[i];
      assert s.enqueued[j] == s.enqueued[i];
    }
  }

  lemma ArriveKeepsInv(s: State, m: Mutation)
    requires Inv(s) && Enabled(s, Arrive(m))
    ensures Inv(Step(s, Arrive(m)))
  {
    var t := Step(s, Arrive(m));
    HistoryGrows(s, t);
    assert t.log[..|s.log|] == s.log;
    forall i | 0 <= i < Removed(t) ensures Settled(t, i) {
      assert Settled(s, i);
    }
    if m !in s.log {
      FirstArrivalIsHead(s, m);
      assert s.enqueued[Removed(s)] == m;
    }
  }

  lemma FailKeepsInv(s: State, l: nat)
    requires Inv(s) && Enabled(s, Fail(l))
    ensures Inv(Step(s, Fail(l)))
  {
    var t := Step(s, Fail(l));
    HistoryGrows(s, t);
    forall i | 0 <= i < Removed(t) ensures Settled(t, i) {
      assert Settled(s, i);
    }
  }

  /** Of the mutations enqueued so far, only the head of the queue or later ones are in it. */
  lemma RemoveUpToHead(s: State, i: nat, id: string)
    requires QueueInv(s) && i <= Removed(s) && i < |s.enqueued| && s.enqueued[i].id == id
    ensures Without(s.queue, id) == if i == Removed(s) then s.queue[1..] else s.queue
  {
    if i == Removed(s) {
      QueueDistinct(s);
      assert s.queue[0] == s.enqueued[i];
      WithoutHead(s.queue);
    } else {
      forall m | m in s.queue ensures m.id != id {
        var k :| 0 <= k < |s.queue| && s.queue[k] == m;
        assert m == s.enqueued[Removed(s) + k];
      }
      WithoutAbsent(s.queue, id);
    }
  }

  lemma LoopAtOrBehindHead(s: State, l: Loop)
    requires QueueInv(s) && LoopInv(s, l)
    ensures l.snapshot[l.pos] == s.enqueued[l.from + l.pos]
    ensures Without(s.queue, l.snapshot[l.pos].id) == if l.from + l.pos == Removed(s) then s.queue[1..] else s.queue
  {
    var m := l.snapshot[l.pos];
    assert m == s.enqueued[l.from + l.pos];
    RemoveUpToHead(s, l.from + l.pos, m.id);
  }

  lemma AnswerEffect(s: State, l: nat)
    requires Enabled(s, Answer(l))
    ensures var t := Step(s, Answer(l));
            && t.queue == Without(s.queue, s.loops[l].snapshot[s.loops[l].pos].id)
            && t.enqueued == s.enqueued && t.log == s.log
            && t.acked == s.acked + {s.loops[l].snapshot[s.loops[l].pos].id}
  {
  }

  /** An answer to the mutation at position `i`, seen from the queue and the history. */
  ghost predicate Moved(s: State, t: State, i: nat, m: Mutation) {
    && i <= Removed(s) && i < |s.enqueued| && s.enqueued[i] == m && m in s.log
    && t.enqueued == s.enqueued && t.log == s.log && t.acked == s.acked + {m.id}
    && t.queue == if i == Removed(s) then s.queue[1..] else s.queue
  }

  lemma AnswerMoves(s: State, l: nat)
    requires Enabled(s, Answer(l)) && QueueInv(s) && LoopInv(s, s.loops[l])
    ensures Moved(s, Step(s, Answer(l)), s.loops[l].from + s.loops[l].pos, s.loops[l].snapshot[s.loops[l].pos])
  {
    LoopAtOrBehindHead(s, s.loops[l]);
    AnswerEffect(s, l);
  }

  /** A loop lags or leads: its answer removes the head of the queue, or nothing at all. */
  lemma AnswerRemovesHead(s: State, l: nat)
    requires Inv(s) && Enabled(s, Answer(l))
    ensures var Loop(snapshot, pos, from) := s.loops[l];
            && 0 <= from && from + pos <= Removed(s) && from + pos < |s.enqueued|
            && snapshot[pos] == s.enqueued[from + pos]
            && Step(s, Answer(l)).queue == (if from + pos == Removed(s) then s.queue[1..] else s.queue)
  {
    AnswerMoves(s, l);
  }

  lemma TailStands(part: seq<Mutation>, whole: seq<Mutation>, from: int)
    requires StandsAt(part, whole, from) && part != []
    ensures StandsAt(part[1..], whole, from + 1)
  {
    forall i | 0 <= i < |part| - 1 ensures part[1..][i] == whole[from + 1 + i] {
      assert part[1..][i] == part[i + 1];
    }
  }

  lemma MovedAdvances(s: State, t: State, i: nat, m: Mutation)
    requires QueueInv(s) && Moved(s, t, i, m)
    ensures QueueInv(t) && i < Removed(t)
    ensures Removed(t) == if i == Removed(s) then Removed(s) + 1 else Removed(s)
  {
    if i == Removed(s) {
      TailStands(s.queue, s.enqueued, i);
    }
  }

  lemma MovedKeepsSettled(s: State, t: State, i: nat, m: Mutation)
    requires QueueInv(s) && AllSettled(s) && Moved(s, t, i, m)
    ensures AllSettled(t)
  {
    MovedAdvances(s, t, i, m);
    FirstDeliveriesMembers(s.log);
    forall k | 0 <= k < Removed(t) && k < |t.enqueued| ensures Settled(t, k) {
      if k < Removed(s) { assert Settled(s, k); }
    }
  }

  lemma MovedKeepsCleared(s: State, t: State, i: nat, m: Mutation)
    requires QueueInv(s) && AllCleared(s) && Moved(s, t, i, m)
    ensures AllCleared(t)
  {
    MovedAdvances(s, t, i, m);
    HistoryGrows(s, t);
    forall id | id in t.acked ensures Cleared(t, id) {
      if id in s.acked {
        assert Cleared(s, id);
      } else {
        assert t.enqueued[i].id == id;
      }
    }
  }

  lemma AnswerKeepsQueue(s: State, l: nat)
    requires Enabled(s, Answer(l)) && QueueInv(s) && LoopInv(s, s.loops[l])
    ensures QueueInv(Step(s, Answer(l))) && Removed(s) <= Removed(Step(s, Answer(l)))
    ensures s.loops[l].from + s.loops[l].pos < Removed(Step(s, Answer(l)))
  {
    var Loop(snapshot, pos, from) := s.loops[l];
    AnswerMoves(s, l);
    MovedAdvances(s, Step(s, Answer(l)), from + pos, snapshot[pos]);
  }

  lemma AnswerKeepsSettled(s: State, l: nat)
    requires Enabled(s, Answer(l)) && QueueInv(s) && LoopInv(s, s.loops[l]) && AllSettled(s)
    ensures AllSettled(Step(s, Answer(l)))
  {
    var Loop(snapshot, pos, from) := s.loops[l];
    AnswerMoves(s, l);
    MovedKeepsSettled(s, Step(s, Answer(l)), from + pos, snapshot[pos]);
  }

  lemma AnswerKeepsCleared(s: State, l: nat)
    requires Enabled(s, Answer(l)) && QueueInv(s) && LoopInv(s, s.loops[l]) && AllCleared(s)
    ensures AllCleared(Step(s, Answer(l)))
  {
    var Loop(snapshot, pos, from) := s.loops[l];
    AnswerMoves(s, l);
    MovedKeepsCleared(s, Step(s, Answer(l)), from + pos, snapshot[pos]);
  }

  lemma AnswerKeepsLoops(s: State, l: nat)
    requires Enabled(s, Answer(l)) && QueueInv(s) && AllLoops(s)
    ensures AllLoops(Step(s, Answer(l)))
  {
    var t := Step(s, Answer(l));
    assert LoopInv(s, s.loops[l]);
    AnswerKeepsQueue(s, l);
    HistoryGrows(s, t);
    forall k | k in t.loops ensures LoopInv(t, t.loops[k]) {
      if k != l { assert LoopInv(s, s.loops[k]); }
    }
  }

  lemma AnswerKeepsSent(s: State, l: nat)
    requires Enabled(s, Answer(l)) && QueueInv(s) && LoopInv(s, s.loops[l]) && AllSent(s)
    ensures AllSent(Step(s, Answer(l)))
  {
    var t := Step(s, Answer(l));
    AnswerKeepsQueue(s, l);
    HistoryGrows(s, t);
    if s.loops[l].pos + 1 < |s.loops[l].snapshot| {
      NextIsUpToHead(s, t, s.loops[l]);
    }
  }

  lemma NextIsUpToHead(s: State, t: State, l: Loop)
    requires LoopInv(s, l) && l.pos + 1 < |l.snapshot|
    requires t.enqueued == s.enqueued && l.from + l.pos < Removed(t)
    ensures UpToHead(t, l.snapshot[l.pos + 1])
  {
    assert l.snapshot[l.pos + 1] == t.enqueued[l.from + l.pos + 1];
  }

  lemma AnswerKeepsInv(s: State, l: nat)
    requires Inv(s) && Enabled(s, Answer(l))
    ensures Inv(Step(s, Answer(l)))
  {
    AnswerKeepsQueue(s, l);
    AnswerKeepsLoops(s, l);
    AnswerKeepsSent(s, l);
    AnswerKeepsSettled(s, l);
    AnswerKeepsCleared(s, l);
  }

  lemma QueueDistinct(s: State)
    requires QueueInv(s)
    ensures DistinctIds(s.queue)
  {
    forall i, j | 0 <= i < j < |s.queue| ensures s.queue[i].id != s.queue[j].id {
      assert s.queue[i] == s.enqueued[Removed(s) + i] && s.queue[j] == s.enqueued[Removed(s) + j];
    }
  }

  lemma StepKeepsInv(s: State, e: Event)
    requires Inv(s) && Enabled(s, e)
    ensures Inv(Step(s, e))
  {
    match e
    case Enqueue(m) => EnqueueKeepsInv(s, m);
    case Start(l) => StartKeepsInv(s, l);
    case Arrive(m) => ArriveKeepsInv(s, m);
    case Answer(l) => AnswerKeepsInv(s, l);
    case Fail(l) => FailKeepsInv(s, l);
  }

  lemma {:induction false} RunKeepsInv(s: State, events: seq<Event>, t: State)
    requires Inv(s) && Runs(s, events, t)
    ensures Inv(t)
    decreases |events|
  {
    if events != [] {
      StepKeepsInv(s, events[0]);
      RunKeepsInv(Step(s, events[0]), events[1..], t);
    }
  }

  /* ---------- what every run keeps ---------- */

  lemma InitInv()
    ensures Inv(INIT)
  {
    assert QueueInv(INIT) && Removed(INIT) == 0;
    assert FirstDeliveries(INIT.log) == [];
    assert AllLoops(INIT);
    assert AllSent(INIT);
    assert AllSettled(INIT);
    assert AllCleared(INIT);
  }

  /** No run breaks the invariant. */
  lemma RunFromStart(events: seq<Event>, s: State)
    requires Runs(INIT, events, s)
    ensures Inv(s)
  {
    InitInv();
    RunKeepsInv(INIT, events, s);
  }

  lemma InvDeliversInOrder(s: State)
    requires Inv(s)
    ensures FirstDeliveries(s.log) <= s.enqueued
    ensures Removed(s) <= |FirstDeliveries(s.log)| <= Removed(s) + 1
  {
    DeliveredCoversRemoved(s);
    var first := FirstDeliveries(s.log);
    FirstDeliveriesMembers(s.log);
    if |first| > 0 {
      var last := first[|first| - 1];
      assert last in first && UpToHead(s, last);
      assert s.enqueued[|first| - 1] == last;
    }
  }

  /** First deliveries happen in enqueue order, whatever overlaps, fails, repeats or is late. */
  lemma DeliveredInEnqueueOrder(events: seq<Event>, s: State)
    requires Runs(INIT, events, s)
    ensures FirstDeliveries(s.log) <= s.enqueued
    ensures Removed(s) <= |FirstDeliveries(s.log)| <= Removed(s) + 1
  {
    RunFromStart(events, s);
    InvDeliversInOrder(s);
  }

  lemma InvLosesNothing(s: State, i: nat)
    requires Inv(s) && i < |s.enqueued|
    ensures s.enqueued[i].id in s.acked <==> i < Removed(s)
    ensures i < Removed(s) ==> s.enqueued[i] in s.log
  {
    if i < Removed(s) {
      assert Settled(s, i);
      FirstDeliveriesMembers(s.log);
    } else {
      assert !Cleared(s, s.enqueued[i].id);
    }
  }

  /** Nothing is lost: a mutation keeps its place in the queue until the server has answered for it. */
  lemma NothingLost(events: seq<Event>, s: State)
    requires Runs(INIT, events, s)
    ensures 0 <= Removed(s) && s.queue == s.enqueued[Removed(s)..]
    ensures forall i | 0 <= i < |s.enqueued| :: s.enqueued[i].id in s.acked <==> i < Removed(s)
    ensures forall i | 0 <= i < Removed(s) :: s.enqueued[i] in s.log
  {
    RunFromStart(events, s);
    forall i | 0 <= i < |s.enqueued|
      ensures s.enqueued[i].id in s.acked <==> i < Removed(s)
      ensures i < Removed(s) ==> s.enqueued[i] in s.log
    {
      InvLosesNothing(s, i);
    }
  }

  /** What was enqueued stays in the record, so a mid-replay enqueue is covered by NothingLost. */
  lemma {:induction false} EnqueuedStays(s: State, events: seq<Event>, t: State)
    requires Runs(s, events, t)
    ensures s.enqueued <= t.enqueued
    decreases |events|
  {
    if events != [] {
      EnqueuedStays(Step(s, events[0]), events[1..], t);
    }
  }

  /* ---------- overlap does happen ---------- */

  /** Two loops over one mutation, which reaches the server twice before either has its answer. */
  lemma TwoLoops(m: Mutation) returns (events: seq<Event>, s: State)
    ensures Runs(INIT, events, s) && s.queue == [m] && s.enqueued == [m] && s.sent == {m}
    ensures s.loops == map[0 := Loop([m], 0, 0), 1 := Loop([m], 0, 0)] && s.log == [m, m] && s.acked == {}
  {
    events, s := [], INIT;
    RunsSnoc(INIT, events, s, Enqueue(m));
    events, s := events + [Enqueue(m)], Step(s, Enqueue(m));
    RunsSnoc(INIT, events, s, Start(0));
    events, s := events + [Start(0)], Step(s, Start(0));
    RunsSnoc(INIT, events, s, Start(1));
    events, s := events + [Start(1)], Step(s, Start(1));
    RunsSnoc(INIT, events, s, Arrive(m));
    events, s := events + [Arrive(m)], Step(s, Arrive(m));
    RunsSnoc(INIT, events, s, Arrive(m));
    events, s := events + [Arrive(m)], Step(s, Arrive(m));
  }

  /** Whatever loops are running, a new mutation goes to the end of the queue and to no snapshot. */
  lemma EnqueueMidReplay(s: State, m: Mutation)
    requires forall n | n in s.enqueued :: n.id != m.id
    ensures Enabled(s, Enqueue(m))
    ensures var t := Step(s, Enqueue(m));
            t.queue == s.queue + [m] && t.loops == s.loops && t.enqueued == s.enqueued + [m]
  {
  }

  /* ---------- one loop on its own ---------- */

  /** The number of leading requests, of `n`, that the server answers. */
  function Answered(server: nat -> bool, n: nat): (k: nat)
    ensures k <= n
    ensures forall i | 0 <= i < k :: server(i)
    ensures k < n ==> !server(k)
  {
    if n == 0 then 0
    else
      var k := Answered(server, n - 1);
      if k == n - 1 && server(k) then n else k
  }

  /** The machine while loop `l` of `s` has had `i` answers and nobody else has moved. */
  ghost predicate AtTurn(s: State, t: State, l: nat, i: nat) {
    && i <= |s.queue| && t.queue == s.queue[i..] && l !in s.loops
    && (if i == |s.queue| then t.loops == s.loops
        else t.loops == s.loops[l := Loop(s.queue, i, |s.enqueued| - |s.queue|)] && s.queue[i] in t.sent)
  }

  lemma FirstTurn(s: State, l: nat) returns (events: seq<Event>, t: State)
    requires l !in s.loops && s.queue != []
    ensures Runs(s, events, t) && AtTurn(s, t, l, 0)
  {
    RunsSnoc(s, [], s, Start(l));
    events, t := [] + [Start(l)], Step(s, Start(l));
  }

  /** The mutation arrives ... */
  lemma TurnArrives(s: State, t: State, l: nat, i: nat)
    requires AtTurn(s, t, l, i) && i < |s.queue|
    ensures Enabled(t, Arrive(s.queue[i]))
    ensures var u := Step(t, Arrive(s.queue[i])); AtTurn(s, u, l, i) && s.queue[i] in u.log
  {
    assert Step(t, Arrive(s.queue[i])).log[|t.log|] == s.queue[i];
  }

  /** ... and its answer removes it. */
  lemma TurnAnswered(s: State, t: State, l: nat, i: nat)
    requires AtTurn(s, t, l, i) && i < |s.queue| && DistinctIds(s.queue) && s.queue[i] in t.log
    ensures Enabled(t, Answer(l)) && AtTurn(s, Step(t, Answer(l)), l, i + 1)
  {
    WithoutHead(t.queue);
    assert t.loops[l] == Loop(s.queue, i, |s.enqueued| - |s.queue|);
    var u := Step(t, Answer(l));
    assert u.queue == s.queue[i + 1..];
    if i + 1 == |s.queue| {
      assert u.loops == t.loops - {l};
    }
  }

  lemma AnsweredTurn(s: State, before: seq<Event>, t: State, l: nat, i: nat) returns (events: seq<Event>, u: State)
    requires Runs(s, before, t) && AtTurn(s, t, l, i) && i < |s.queue| && DistinctIds(s.queue)
    ensures Runs(s, events, u) && AtTurn(s, u, l, i + 1)
  {
    TurnArrives(s, t, l, i);
    var arrived := Step(t, Arrive(s.queue[i]));
    TurnAnswered(s, arrived, l, i);
    RunsSnoc(s, before, t, Arrive(s.queue[i]));
    RunsSnoc(s, before + [Arrive(s.queue[i])], arrived, Answer(l));
    events, u := before + [Arrive(s.queue[i])] + [Answer(l)], Step(arrived, Answer(l));
  }

  lemma FailedTurn(s: State, before: seq<Event>, t: State, l: nat, i: nat) returns (events: seq<Event>, u: State)
    requires Runs(s, before, t) && AtTurn(s, t, l, i) && i < |s.queue|
    ensures Runs(s, events, u) && u.queue == t.queue && u.loops == s.loops
  {
    RunsSnoc(s, before, t, Fail(l));
    events, u := before + [Fail(l)], Step(t, Fail(l));
  }

  /** The first `k` turns of a loop, each of them answered. */
  lemma {:induction false} Turns(s: State, l: nat, k: nat) returns (events: seq<Event>, t: State)
    requires l !in s.loops && s.queue != [] && DistinctIds(s.queue) && k <= |s.queue|
    ensures Runs(s, events, t) && AtTurn(s, t, l, k)
  {
    if k == 0 {
      events, t := FirstTurn(s, l);
    } else {
      events, t := Turns(s, l, k - 1);
      events, t := AnsweredTurn(s, events, t, l, k - 1);
    }
  }

  /** A loop that gets `k` answers and then fails, or ends, is a run that removes `k` mutations. */
  lemma TurnsAndEnd(s: State, l: nat, k: nat) returns (events: seq<Event>, t: State)
    requires l !in s.loops && DistinctIds(s.queue) && k <= |s.queue|
    ensures Runs(s, events, t) && t.queue == s.queue[k..] && t.loops == s.loops
  {
    if s.queue == [] {
      return [], s;
    }
    events, t := Turns(s, l, k);
    if k < |s.queue| {
      events, t := FailedTurn(s, events, t, l, k);
    }
  }

  /**
   * An uninterrupted replay: the queue loses exactly the answered prefix, the server has been
   * sent that prefix and at most one mutation more, in order, and the replay is a run of the
   * machine above.
   */
  method Replay(queue: OfflineQueue, server: nat -> bool, ghost s: State, ghost l: nat)
    returns (sent: seq<Mutation>, ghost events: seq<Event>, ghost t: State)
    requires s.queue == queue.GetQueue() && DistinctIds(s.queue) && l !in s.loops
    modifies queue
    ensures var before := old(queue.GetQueue());
            var k := Answered(server, |before|);
            && queue.GetQueue() == before[k..]
            && sent == if k == |before| then before else before[..k + 1]
    ensures Runs(s, events, t) && t.queue == queue.GetQueue() && t.loops == s.loops
  {
    var snapshot := queue.GetQueue();
    ghost var k := Answered(server, |snapshot|);
    sent := [];
    for i := 0 to |snapshot|
      invariant i <= k
      invariant queue.GetQueue() == snapshot[i..]
      invariant sent == snapshot[..i]
    {
      sent := sent + [snapshot[i]];
      if !server(i) {
        break;
      }
      WithoutHead(snapshot[i..]);
      queue.Remove(snapshot[i].id);
    }
    events, t := TurnsAndEnd(s, l, k);
  }
}
